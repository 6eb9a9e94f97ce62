/** Durations and bounded integers of the configuration: `duration_nanoseconds`, `whole_seconds`,
    `canonical_unsigned` and `canonical_duration` of `src/config.cpp`. */
module Durations {
  import opened Bytes
  import opened Decimals
  import opened Errors

  datatype Unit = Ns | Us | Ms | Seconds | Minutes | Hours

  datatype Term = Term(number: nat, unit: Unit)

  const SECOND: nat := 1_000_000_000
  const UINT64_MAX: nat := UINT64_LIMIT - 1
  const INT64_MAX: nat := 0x7FFF_FFFF_FFFF_FFFF

  /** Nanoseconds in a unit. */
  function Scale(u: Unit): (n: nat)
    ensures n > 0
  {
    match u
    case Ns => 1
    case Us => 1_000
    case Ms => 1_000_000
    case Seconds => SECOND
    case Minutes => 60 * SECOND
    case Hours => 3600 * SECOND
  }

  function Suffix(u: Unit): string {
    match u
    case Ns => "ns"
    case Us => "us"
    case Ms => "ms"
    case Seconds => "s"
    case Minutes => "m"
    case Hours => "h"
  }

  // ---- the meaning of a duration text

  function DigitCount(text: string): (k: nat)
    ensures k <= |text| && Digits(text[..k])
    ensures k < |text| ==> !Digit(text[k])
  {
    if text == "" || !Digit(text[0]) then 0
    else
      var k := DigitCount(text[1..]);
      assert text[..k + 1] == [text[0]] + text[1..][..k];
      k + 1
  }

  /** The unit in front of a text; two-letter units are tried first. */
  function UnitAt(text: string): (u: Option<Unit>)
    ensures u.Some? ==> Suffix(u.value) <= text
  {
    if "ns" <= text then Some(Ns)
    else if "us" <= text then Some(Us)
    else if "ms" <= text then Some(Ms)
    else if "s" <= text then Some(Seconds)
    else if "m" <= text then Some(Minutes)
    else if "h" <= text then Some(Hours)
    else None
  }

  /** The numeral and unit in front of a text, and the text behind them. */
  function Front(text: string): (r: Option<(Term, string)>)
    requires text != ""
    ensures r.Some? ==> |r.value.1| < |text|
  {
    var k := DigitCount(text);
    var unit := UnitAt(text[k..]);
    if k == 0 || unit.None? then None
    else Some((Term(Value(text[..k]), unit.value), text[k + |Suffix(unit.value)|..]))
  }

  /** The list of terms a text spells. */
  function Terms(text: string): Option<seq<Term>>
    decreases |text|
  {
    if text == "" then Some([])
    else
      var front := Front(text);
      if front.None? then None
      else
        var rest := Terms(front.value.1);
        if rest.None? then None else Some([front.value.0] + rest.value)
  }

  function Length(t: Term): nat {
    t.number * Scale(t.unit)
  }

  /** The exact sum, in nanoseconds. */
  function Sum(terms: seq<Term>): nat {
    if terms == [] then 0 else Length(terms[0]) + Sum(terms[1..])
  }

  // ---- what the accumulators compute

  /** One numeral and unit, with the numeral in 64 bits. */
  function TakeTerm(text: string): (r: Result<(Term, string)>)
    requires text != ""
    ensures r.Success? ==> |r.value.1| < |text|
  {
    if DigitCount(text) == 0 then Failure(MalformedInput)
    else if Value(text[..DigitCount(text)]) > UINT64_MAX then Failure(ResourceLimit)
    else if Front(text).None? then Failure(MalformedInput)
    else Success(Front(text).value)
  }

  function Nanoseconds(text: string, total: nat): Result<nat>
    decreases |text|
  {
    if text == "" then Success(total)
    else
      var taken :- TakeTerm(text);
      if total + Length(taken.0) > UINT64_MAX then Failure(ResourceLimit)
      else Nanoseconds(taken.1, total + Length(taken.0))
  }

  function DurationNanoseconds(text: string): Result<nat> {
    if |text| < 2 then Failure(MalformedInput) else Nanoseconds(text, 0)
  }

  /** The two words after one more term, or the overflow of the first. */
  function Carry(seconds: nat, nanoseconds: nat, t: Term): (r: Option<(nat, nat)>)
    requires nanoseconds < SECOND
    ensures r.Some? ==> r.value.0 <= UINT64_MAX && r.value.1 < SECOND
  {
    var addedSeconds := Length(t) / SECOND;
    var addedNanoseconds := Length(t) % SECOND;
    if seconds + addedSeconds > UINT64_MAX then None
    else if nanoseconds + addedNanoseconds < SECOND then Some((seconds + addedSeconds, nanoseconds + addedNanoseconds))
    else if seconds + addedSeconds == UINT64_MAX then None
    else Some((seconds + addedSeconds + 1, nanoseconds + addedNanoseconds - SECOND))
  }

  function TwoWords(text: string, seconds: nat, nanoseconds: nat): (r: Result<(nat, nat)>)
    requires seconds <= UINT64_MAX && nanoseconds < SECOND
    ensures r.Success? ==> r.value.0 <= UINT64_MAX && r.value.1 < SECOND
    decreases |text|
  {
    if text == "" then Success((seconds, nanoseconds))
    else
      var taken :- TakeTerm(text);
      var next := Carry(seconds, nanoseconds, taken.0);
      if next.None? then Failure(ResourceLimit) else TwoWords(taken.1, next.value.0, next.value.1)
  }

  /** `None` stands for a member that is absent or not a string. */
  function WholeSeconds(text: Option<string>, positive: bool): Result<nat> {
    if text.None? || |text.value| < 2 then Failure(MalformedInput)
    else
      var words :- TwoWords(text.value, 0, 0);
      if words.1 != 0 || (positive && words.0 == 0) || words.0 > INT64_MAX then Failure(MalformedInput)
      else Success(words.0)
  }

  // ---- exactness

  predicate InWords(terms: seq<Term>) {
    forall t :: t in terms ==> t.number <= UINT64_MAX
  }

  lemma EmptyTerms()
    ensures Terms("") == Some([])
  {
  }

  lemma TakeIsFront(text: string)
    requires text != ""
    ensures TakeTerm(text).Success? <==> Front(text).Some? && Front(text).value.0.number <= UINT64_MAX
    ensures TakeTerm(text).Success? ==> TakeTerm(text).value == Front(text).value
  {
  }

  lemma TermsStep(text: string)
    requires text != ""
    ensures Terms(text).Some? <==> Front(text).Some? && Terms(Front(text).value.1).Some?
    ensures Terms(text).Some? ==>
              && Terms(text).value != [] && Front(text).Some? && Front(text).value.0 == Terms(text).value[0]
              && Terms(Front(text).value.1) == Some(Terms(text).value[1..])
  {
    hide Front, TakeTerm;
    if Terms(text).Some? {
      var front := Front(text).value;
      var rest := Terms(front.1).value;
      assert ([front.0] + rest)[1..] == rest;
    }
  }

  lemma {:induction false} NanosecondsAreExact(text: string, total: nat)
    requires total <= UINT64_MAX
    ensures var r, terms := Nanoseconds(text, total), Terms(text);
            && (r.Success? <==> (terms.Some? && total + Sum(terms.value) <= UINT64_MAX))
            && (r.Success? ==> r.value == total + Sum(terms.value))
    decreases |text|
  {
    hide TakeTerm, Front, Terms, Length;
    if text == "" {
      EmptyTerms();
    } else {
      var taken := TakeTerm(text);
      TakeIsFront(text);
      TermsStep(text);
      if Terms(text).Some? {
        LengthBound(Terms(text).value[0]);
      }
      if taken.Success? && total + Length(taken.value.0) <= UINT64_MAX {
        NanosecondsAreExact(taken.value.1, total + Length(taken.value.0));
      }
    }
  }

  lemma LengthBound(t: Term)
    ensures t.number <= Length(t)
  {
  }

  /** A duration is accepted exactly when it spells terms whose sum fits 64 bits, and then is that sum. */
  lemma DurationIsExact(text: string, n: nat)
    ensures DurationNanoseconds(text) == Success(n) <==>
            (|text| >= 2 && Terms(text).Some? && Sum(Terms(text).value) == n && n <= UINT64_MAX)
  {
    hide Nanoseconds, Terms, Sum;
    NanosecondsAreExact(text, 0);
  }

  /** The two words hold the sum as long as the seconds fit. */
  lemma CarryIsExact(seconds: nat, nanoseconds: nat, t: Term)
    requires nanoseconds < SECOND
    ensures var r := Carry(seconds, nanoseconds, t);
            var sum := seconds * SECOND + nanoseconds + Length(t);
            && (r.Some? <==> sum / SECOND <= UINT64_MAX)
            && (r.Some? ==> r.value.0 * SECOND + r.value.1 == sum)
  {
    var q, m := Length(t) / SECOND, Length(t) % SECOND;
    assert Length(t) == q * SECOND + m;
  }

  lemma {:induction false} TwoWordsAreExact(text: string, seconds: nat, nanoseconds: nat)
    requires seconds <= UINT64_MAX && nanoseconds < SECOND
    ensures var r, terms, start := TwoWords(text, seconds, nanoseconds), Terms(text), seconds * SECOND + nanoseconds;
            && (r.Success? <==>
                  (terms.Some? && InWords(terms.value) && (start + Sum(terms.value)) / SECOND <= UINT64_MAX))
            && (r.Success? ==> r.value.0 * SECOND + r.value.1 == start + Sum(terms.value))
    decreases |text|
  {
    hide TakeTerm, Front, Terms, Length, Carry;
    if text == "" {
      EmptyTerms();
    } else {
      var taken := TakeTerm(text);
      TakeIsFront(text);
      TermsStep(text);
      if Terms(text).Some? {
        var terms := Terms(text).value;
        assert terms == [terms[0]] + terms[1..];
      }
      if taken.Success? {
        CarryIsExact(seconds, nanoseconds, taken.value.0);
        var next := Carry(seconds, nanoseconds, taken.value.0);
        if next.Some? {
          TwoWordsAreExact(taken.value.1, next.value.0, next.value.1);
        }
      }
    }
  }

  /** A whole-second value is accepted exactly when the numerals fit 64 bits and the sum is an admitted
      number of seconds, and then is that number. */
  lemma WholeSecondsIsExact(text: string, positive: bool, s: nat)
    ensures WholeSeconds(Some(text), positive) == Success(s) <==>
            (&& |text| >= 2 && Terms(text).Some? && InWords(Terms(text).value)
             && Sum(Terms(text).value) == s * SECOND && s <= INT64_MAX && (positive ==> s > 0))
  {
    hide TwoWords, Terms, InWords, Sum;
    TwoWordsAreExact(text, 0, 0);
    if Terms(text).Some? {
      var sum := Sum(Terms(text).value);
      var words := TwoWords(text, 0, 0);
      if words.Success? && words.value.1 == 0 {
        assert sum == words.value.0 * SECOND;
      }
      if sum == s * SECOND {
        assert sum / SECOND == s;
      }
    }
  }

  lemma {:induction false} SumBoundsNumbers(terms: seq<Term>)
    requires Sum(terms) <= UINT64_MAX
    ensures InWords(terms)
  {
    if terms != [] {
      LengthBound(terms[0]);
      SumBoundsNumbers(terms[1..]);
      assert terms == [terms[0]] + terms[1..];
    }
  }

  /** A nanosecond count that is a multiple of a second is read back as that many seconds. */
  lemma SecondsReadBack(text: string, n: nat)
    requires DurationNanoseconds(text) == Success(n) && n % SECOND == 0
    ensures WholeSeconds(Some(text), false) == Success(n / SECOND)
  {
    DurationIsExact(text, n);
    SumBoundsNumbers(Terms(text).value);
    WholeSecondsIsExact(text, false, n / SECOND);
  }

  // ---- canonical numerals and durations

  /** `canonical_unsigned`: the digits in order, refused at the first that is none or overflows. */
  function CanonicalPrefix(text: string, k: nat, maximum: nat): Result<nat>
    requires k <= |text|
    decreases |text| - k
  {
    if k == |text| then (if Value(text) > maximum then Failure(ResourceLimit) else Success(Value(text)))
    else if !Digit(text[k]) then Failure(MalformedInput)
    else if Value(text[..k + 1]) > maximum then Failure(ResourceLimit)
    else CanonicalPrefix(text, k + 1, maximum)
  }

  function CanonicalUnsigned(text: string, maximum: nat): Result<nat> {
    if text == "" || (|text| > 1 && text[0] == '0') then Failure(MalformedInput) else CanonicalPrefix(text, 0, maximum)
  }

  lemma {:induction false} CanonicalPrefixIsExact(text: string, k: nat, maximum: nat)
    requires k <= |text| && Digits(text[..k])
    ensures var r := CanonicalPrefix(text, k, maximum);
            && (r.Success? <==> (Digits(text) && Value(text) <= maximum))
            && (r.Success? ==> r.value == Value(text))
    decreases |text| - k
  {
    if k < |text| {
      ValueGrows(text, k + 1);
      if Digit(text[k]) {
        assert Digits(text[..k + 1]);
        CanonicalPrefixIsExact(text, k + 1, maximum);
      }
    } else {
      assert text[..k] == text;
    }
  }

  /** A bounded integer is accepted exactly when it is the shortest numeral of a number within the bound. */
  lemma CanonicalUnsignedIsExact(text: string, maximum: nat, n: nat)
    ensures CanonicalUnsigned(text, maximum) == Success(n) <==> text == Decimal(n) && n <= maximum
  {
    assert text[..0] == "";
    CanonicalPrefixIsExact(text, 0, maximum);
    ValueOfDecimal(n);
    if Canonical(text) {
      DecimalOfValue(text);
    }
  }

  /** The unit letters at the end of a text. */
  function UnitLength(text: string): (k: nat)
    ensures k <= |text|
  {
    if |text| >= 2 && text[|text| - 2..] in {"ns", "us", "ms"} then 2
    else if text != "" && text[|text| - 1] in {'s', 'm', 'h'} then 1
    else 0
  }

  function CanonicalDuration(text: string): Result<nat> {
    var unitLength := UnitLength(text);
    if unitLength == 0 || |text| == unitLength then Failure(MalformedInput)
    else
      var _ :- CanonicalUnsigned(text[..|text| - unitLength], UINT64_MAX);
      DurationNanoseconds(text)
  }

  lemma {:induction false} DigitCountOf(digits: string, rest: string)
    requires Digits(digits) && (rest != "" ==> !Digit(rest[0]))
    ensures DigitCount(digits + rest) == |digits|
    decreases |digits|
  {
    if digits == "" {
      assert digits + rest == rest;
    } else {
      assert (digits + rest)[1..] == digits[1..] + rest;
      DigitCountOf(digits[1..], rest);
    }
  }

  lemma UnitOfItself(u: Unit)
    ensures UnitAt(Suffix(u)) == Some(u) && !Digit(Suffix(u)[0])
  {
    var text := Suffix(u);
    assert text[0] in {'n', 'u', 'm', 's', 'h'};
  }

  /** A single term. */
  lemma TermsOfOne(digits: string, u: Unit)
    requires digits != "" && Digits(digits)
    ensures Terms(digits + Suffix(u)) == Some([Term(Value(digits), u)])
  {
    hide Value, DigitCount, UnitAt;
    var text := digits + Suffix(u);
    UnitOfItself(u);
    DigitCountOf(digits, Suffix(u));
    assert text[..|digits|] == digits && text[|digits|..] == Suffix(u);
    assert text[|text|..] == "";
    assert Front(text) == Some((Term(Value(digits), u), ""));
    EmptyTerms();
    TermsStep(text);
    var terms := Terms(text).value;
    assert terms[1..] == [] && |terms| == 1;
    assert terms == [Term(Value(digits), u)];
  }

  lemma UnitOfSuffix(text: string) returns (u: Unit)
    requires 0 < UnitLength(text) < |text| && Digits(text[..|text| - UnitLength(text)])
    ensures text == text[..|text| - UnitLength(text)] + Suffix(u) && UnitLength(text) == |Suffix(u)|
  {
    var k := UnitLength(text);
    var end := text[|text| - k..];
    assert text == text[..|text| - k] + end;
    if k == 2 {
      u := if end == "ns" then Ns else if end == "us" then Us else Ms;
    } else {
      assert end == [text[|text| - 1]];
      u := if end == "s" then Seconds else if end == "m" then Minutes else Hours;
    }
  }

  lemma UnitLengthOf(digits: string, u: Unit)
    requires digits != "" && Digits(digits)
    ensures UnitLength(digits + Suffix(u)) == |Suffix(u)|
  {
    var text := digits + Suffix(u);
    assert text[|text| - 2..][0] == text[|text| - 2] && text[|text| - 2..][1] == text[|text| - 1];
    assert text[|digits|..] == Suffix(u);
  }

  /** An initializer duration is accepted exactly when it is one canonical numeral and one unit that
      together fit 64 bits. */
  lemma CanonicalDurationIsExact(text: string, n: nat)
    ensures CanonicalDuration(text) == Success(n) <==>
            exists k, u :: text == Decimal(k) + Suffix(u) && n == Length(Term(k, u)) && n <= UINT64_MAX
  {
    hide DurationNanoseconds, CanonicalUnsigned, Terms, Decimal, UnitLength;
    if CanonicalDuration(text) == Success(n) {
      CanonicalDurationSpells(text, n);
    }
    if exists k, u :: text == Decimal(k) + Suffix(u) && n == Length(Term(k, u)) && n <= UINT64_MAX {
      var k, u :| text == Decimal(k) + Suffix(u) && n == Length(Term(k, u)) && n <= UINT64_MAX;
      SpelledIsCanonical(k, u);
    }
  }

  lemma CanonicalDurationSpells(text: string, n: nat)
    requires CanonicalDuration(text) == Success(n)
    ensures exists k, u :: text == Decimal(k) + Suffix(u) && n == Length(Term(k, u)) && n <= UINT64_MAX
  {
    hide DurationNanoseconds, CanonicalUnsigned, Terms, Decimal;
    var digits := text[..|text| - UnitLength(text)];
    var k := CanonicalUnsigned(digits, UINT64_MAX).value;
    CanonicalUnsignedIsExact(digits, UINT64_MAX, k);
    ValueOfDecimal(k);
    var u := UnitOfSuffix(text);
    TermsOfOne(digits, u);
    DurationIsExact(text, n);
    SumOfOne(Term(k, u));
  }

  lemma SumOfOne(t: Term)
    ensures Sum([t]) == Length(t)
  {
  }

  lemma SpelledIsCanonical(k: nat, u: Unit)
    requires Length(Term(k, u)) <= UINT64_MAX
    ensures CanonicalDuration(Decimal(k) + Suffix(u)) == Success(Length(Term(k, u)))
  {
    hide DurationNanoseconds, CanonicalUnsigned, Terms, Decimal, UnitLength;
    var text := Decimal(k) + Suffix(u);
    UnitLengthOf(Decimal(k), u);
    assert text[..|text| - |Suffix(u)|] == Decimal(k);
    LengthBound(Term(k, u));
    CanonicalUnsignedIsExact(Decimal(k), UINT64_MAX, k);
    ValueOfDecimal(k);
    TermsOfOne(Decimal(k), u);
    SumOfOne(Term(k, u));
    DurationIsExact(text, Length(Term(k, u)));
  }

  /** Every skew the initializer admits is read back from the configuration as the same seconds. */
  lemma SkewReadsBack(text: string, n: nat)
    requires CanonicalDuration(text) == Success(n) && n % SECOND == 0
    ensures WholeSeconds(Some(text), false) == Success(n / SECOND)
  {
    SecondsReadBack(text, n);
  }

  // ---- the loops

  lemma DigitCountStep(text: string, offset: nat, k: nat)
    requires offset + k <= |text| && Digits(text[offset..offset + k])
    ensures (offset + k == |text| || !Digit(text[offset + k])) <==> DigitCount(text[offset..]) == k
  {
    var rest := text[offset..];
    assert rest[..k] == text[offset..offset + k];
    if offset + k == |text| || !Digit(text[offset + k]) {
      assert rest == rest[..k] + rest[k..];
      DigitCountOf(rest[..k], rest[k..]);
    } else if DigitCount(rest) == k {
      assert rest[k] == text[offset + k];
    }
  }

  /** The digit loop both parsers start a term with; it stops at the first overflow of 64 bits. */
  method ReadNumber(text: string, start: nat) returns (number: Option<nat>, offset: nat)
    requires start < |text|
    ensures number.None? <==> Value(text[start..start + DigitCount(text[start..])]) > UINT64_MAX
    ensures number.Some? ==>
              && offset == start + DigitCount(text[start..])
              && number.value == Value(text[start..offset])
  {
    hide DigitCount, Value, Digits;
    NoDigits();
    ghost var run := text[start..start + DigitCount(text[start..])];
    offset := start;
    var value := 0;
    assert text[start..offset] == "";
    while offset < |text| && '0' <= text[offset] <= '9'
      invariant start <= offset <= |text| && value <= UINT64_MAX
      invariant Digits(text[start..offset]) && value == Value(text[start..offset])
      invariant offset - start <= |run|
    {
      var digit := DigitValue(text[offset]);
      DigitCountStep(text, start, offset - start);
      assert offset - start < |run| by {
        RunIsDigits(text, start, offset);
      }
      var next := text[start..offset + 1];
      RunGrows(text, start, offset);
      if value > (UINT64_MAX - digit) / 10 {
        assert run[..offset + 1 - start] == next;
        ValueGrows(run, offset + 1 - start);
        return None, offset;
      }
      value := value * 10 + digit;
      offset := offset + 1;
    }
    DigitCountStep(text, start, offset - start);
    number := Some(value);
  }

  lemma NoDigits()
    ensures Digits("") && Value("") == 0
  {
  }

  lemma RunGrows(text: string, start: nat, offset: nat)
    requires start <= offset < |text| && Digits(text[start..offset]) && Digit(text[offset])
    ensures Digits(text[start..offset + 1])
    ensures Value(text[start..offset + 1]) == Value(text[start..offset]) * 10 + DigitValue(text[offset])
  {
    var next := text[start..offset + 1];
    assert next[..offset - start] == text[start..offset];
    assert next == text[start..offset] + [text[offset]];
  }

  /** The run of digits reaches as far as the digits do. */
  lemma RunIsDigits(text: string, start: nat, offset: nat)
    requires start <= offset < |text| && Digits(text[start..offset]) && Digit(text[offset])
    ensures offset - start < DigitCount(text[start..])
  {
    assert forall i :: 0 <= i < offset - start ==> text[start..][i] == text[start..offset][i];
    assert text[start..][offset - start] == text[offset];
  }

  /** The chain of unit tests at an offset. */
  method ReadUnit(text: string, offset: nat) returns (unit: Option<Unit>)
    requires offset <= |text|
    ensures unit == UnitAt(text[offset..])
  {
    var two := if offset + 2 <= |text| then text[offset..offset + 2] else text[offset..];
    var one := if offset < |text| then [text[offset]] else "";
    SubstringIsPrefix(text, offset);
    if two == "ns" {
      unit := Some(Ns);
    } else if two == "us" {
      unit := Some(Us);
    } else if two == "ms" {
      unit := Some(Ms);
    } else if one == "s" {
      unit := Some(Seconds);
    } else if one == "m" {
      unit := Some(Minutes);
    } else if one == "h" {
      unit := Some(Hours);
    } else {
      unit := None;
    }
  }

  lemma SubstringIsPrefix(text: string, offset: nat)
    requires offset <= |text|
    ensures var two := if offset + 2 <= |text| then text[offset..offset + 2] else text[offset..];
            forall p: string :: |p| == 2 ==> (two == p <==> p <= text[offset..])
    ensures var one := if offset < |text| then [text[offset]] else "";
            forall p: string :: |p| == 1 ==> (one == p <==> p <= text[offset..])
  {
    var rest := text[offset..];
    if offset + 2 <= |text| {
      assert text[offset..offset + 2] == rest[..2];
    }
    if offset < |text| {
      assert rest[..1] == [text[offset]];
    }
  }

  /** One term at an offset, in the order both parsers check it. */
  lemma TakeTermAt(text: string, offset: nat)
    requires offset < |text|
    ensures var k, r := DigitCount(text[offset..]), TakeTerm(text[offset..]);
            && (k == 0 ==> r == Failure(MalformedInput))
            && (k > 0 && Value(text[offset..offset + k]) > UINT64_MAX ==> r == Failure(ResourceLimit))
            && (k > 0 && Value(text[offset..offset + k]) <= UINT64_MAX ==>
                  var unit := UnitAt(text[offset + k..]);
                  r == if unit.None? then Failure(MalformedInput)
                       else Success((Term(Value(text[offset..offset + k]), unit.value),
                                     text[offset + k + |Suffix(unit.value)|..])))
    ensures DigitCount(text[offset..]) == 0 <==> !Digit(text[offset])
  {
    hide Value, UnitAt, Digits;
    var k := DigitCount(text[offset..]);
    assert text[offset..][..k] == text[offset..offset + k];
    assert text[offset..][k..] == text[offset + k..];
    var unit := UnitAt(text[offset + k..]);
    if unit.Some? {
      assert text[offset..][k + |Suffix(unit.value)|..] == text[offset + k + |Suffix(unit.value)|..];
    }
  }

  method ReadNanoseconds(text: string) returns (r: Result<nat>)
    ensures r == DurationNanoseconds(text)
  {
    hide TakeTerm, DigitCount, Value, UnitAt;
    if |text| < 2 {
      return Failure(MalformedInput);
    }
    var total: nat, offset := 0, 0;
    assert text[0..] == text;
    while offset < |text|
      invariant offset <= |text| && total <= UINT64_MAX
      invariant Nanoseconds(text, 0) == Nanoseconds(text[offset..], total)
    {
      TakeTermAt(text, offset);
      if text[offset] < '0' || text[offset] > '9' {
        return Failure(MalformedInput);
      }
      var number, behind := ReadNumber(text, offset);
      if number.None? {
        return Failure(ResourceLimit);
      }
      var unit := ReadUnit(text, behind);
      if unit.None? {
        return Failure(MalformedInput);
      }
      var scale := Scale(unit.value);
      OverflowTest(number.value, scale, total);
      if number.value > UINT64_MAX / scale || total > UINT64_MAX - number.value * scale {
        return Failure(ResourceLimit);
      }
      total := total + number.value * scale;
      offset := behind + |Suffix(unit.value)|;
    }
    r := Success(total);
  }

  /** The two comparisons are the test of the exact sum. */
  lemma OverflowTest(number: nat, scale: nat, total: nat)
    requires scale > 0
    ensures (number > UINT64_MAX / scale || total > UINT64_MAX - number * scale) <==>
              total + number * scale > UINT64_MAX
  {
    if number > UINT64_MAX / scale {
      var q := UINT64_MAX / scale;
      assert number * scale >= (q + 1) * scale by {
        Monotonic(q + 1, number, scale);
      }
    }
  }

  lemma WholeUnit(number: nat, unit: Unit, seconds: nat)
    requires Scale(unit) == seconds * SECOND
    ensures Length(Term(number, unit)) / SECOND == number * seconds && Length(Term(number, unit)) % SECOND == 0
  {
    assert Length(Term(number, unit)) == number * seconds * SECOND;
    Division(Length(Term(number, unit)), number * seconds, 0, SECOND);
  }

  lemma SubUnit(number: nat, unit: Unit, count: nat)
    requires count > 0 && count * Scale(unit) == SECOND
    ensures number % count * Scale(unit) < SECOND
    ensures Length(Term(number, unit)) / SECOND == number / count
    ensures Length(Term(number, unit)) % SECOND == number % count * Scale(unit)
  {
    var q, m, scale := number / count, number % count, Scale(unit);
    Monotonic(m + 1, count, scale);
    assert (m + 1) * scale == m * scale + scale;
    assert number == q * count + m;
    Distribute(q, count, m, scale);
    Division(Length(Term(number, unit)), q, m * scale, SECOND);
  }

  lemma Distribute(q: nat, count: nat, m: nat, scale: nat)
    ensures (q * count + m) * scale == q * (count * scale) + m * scale
  {
  }

  /** The seconds and nanoseconds of one term, without multiplying a sub-second unit out. */
  method Split(number: nat, unit: Unit) returns (words: Option<(nat, nat)>)
    requires number <= UINT64_MAX
    ensures words == if Length(Term(number, unit)) / SECOND > UINT64_MAX then None
                     else Some((Length(Term(number, unit)) / SECOND, Length(Term(number, unit)) % SECOND))
  {
    hide Length;
    if unit.Seconds? || unit.Minutes? || unit.Hours? {
      var unitSeconds: nat := if unit.Seconds? then 1 else if unit.Minutes? then 60 else 3600;
      WholeUnit(number, unit, unitSeconds);
      if number > UINT64_MAX / unitSeconds {
        return None;
      }
      words := Some((number * unitSeconds, 0));
    } else {
      var scale := Scale(unit);
      var unitsPerSecond := SECOND / scale;
      SubUnit(number, unit, unitsPerSecond);
      words := Some((number / unitsPerSecond, number % unitsPerSecond * scale));
    }
  }

  method ReadWholeSeconds(text: Option<string>, positive: bool) returns (r: Result<nat>)
    ensures r == WholeSeconds(text, positive)
  {
    hide TakeTerm, DigitCount, Value, UnitAt, Length;
    if text.None? || |text.value| < 2 {
      return Failure(MalformedInput);
    }
    var value := text.value;
    var seconds: nat, nanoseconds: nat, offset := 0, 0, 0;
    assert value[0..] == value;
    while offset < |value|
      invariant offset <= |value| && seconds <= UINT64_MAX && nanoseconds < SECOND
      invariant TwoWords(value, 0, 0) == TwoWords(value[offset..], seconds, nanoseconds)
    {
      TakeTermAt(value, offset);
      if value[offset] < '0' || value[offset] > '9' {
        return Failure(MalformedInput);
      }
      var number, behind := ReadNumber(value, offset);
      if number.None? {
        return Failure(ResourceLimit);
      }
      var unit := ReadUnit(value, behind);
      if unit.None? {
        return Failure(MalformedInput);
      }
      var added := Split(number.value, unit.value);
      if added.None? {
        return Failure(ResourceLimit);
      }
      if seconds > UINT64_MAX - added.value.0 {
        return Failure(ResourceLimit);
      }
      seconds := seconds + added.value.0;
      nanoseconds := nanoseconds + added.value.1;
      if nanoseconds >= SECOND {
        if seconds == UINT64_MAX {
          return Failure(ResourceLimit);
        }
        seconds := seconds + 1;
        nanoseconds := nanoseconds - SECOND;
      }
      offset := behind + |Suffix(unit.value)|;
    }
    if nanoseconds != 0 || (positive && seconds == 0) || seconds > INT64_MAX {
      return Failure(MalformedInput);
    }
    r := Success(seconds);
  }

  /** Every caller's bound is at least 4096, so `maximum - digit` does not wrap. */
  method ReadCanonicalUnsigned(text: string, maximum: nat) returns (r: Result<nat>)
    requires maximum >= 9
    ensures r == CanonicalUnsigned(text, maximum)
  {
    if text == "" || (|text| > 1 && text[0] == '0') {
      return Failure(MalformedInput);
    }
    var result: nat, index := 0, 0;
    assert text[..0] == "";
    while index < |text|
      invariant 0 <= index <= |text| && result == Value(text[..index]) && result <= maximum
      invariant CanonicalUnsigned(text, maximum) == CanonicalPrefix(text, index, maximum)
    {
      if text[index] < '0' || text[index] > '9' {
        return Failure(MalformedInput);
      }
      var digit := DigitValue(text[index]);
      ValueStep(text, index);
      if result > (maximum - digit) / 10 {
        return Failure(ResourceLimit);
      }
      result := result * 10 + digit;
      index := index + 1;
    }
    assert text[..index] == text;
    if result > maximum {
      assert false;
    }
    r := Success(result);
  }

  method ReadUnitLength(text: string) returns (unitLength: nat)
    ensures unitLength == UnitLength(text)
  {
    unitLength := 0;
    var end := if |text| >= 2 then text[|text| - 2..] else "";
    if |text| >= 2 && (end == "ns" || end == "us" || end == "ms") {
      unitLength := 2;
    } else if text != "" && (text[|text| - 1] == 's' || text[|text| - 1] == 'm' || text[|text| - 1] == 'h') {
      unitLength := 1;
    }
  }

  method ReadCanonicalDuration(text: string) returns (r: Result<nat>)
    ensures r == CanonicalDuration(text)
  {
    hide DurationNanoseconds, CanonicalUnsigned, UnitLength;
    var unitLength := ReadUnitLength(text);
    if unitLength == 0 || |text| == unitLength {
      return Failure(MalformedInput);
    }
    var number := ReadCanonicalUnsigned(text[..|text| - unitLength], UINT64_MAX);
    if number.Failure? {
      return Failure(number.kind);
    }
    r := ReadNanoseconds(text);
  }
}
