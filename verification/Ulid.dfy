/** A 128-bit identifier and its 26-character Crockford base32 text. */
module Ulid {
  import opened Outcomes

  const ULID_LIMIT := 0x1_0000_0000_0000_0000_0000_0000_0000_0000
  const ENCODED_LEN := 26

  type Id = n: nat | n < ULID_LIMIT

  // --- One digit ------------------------------------------------------------------------------------

  /** The alphabet leaves out `I`, `L`, `O` and `U`. */
  function EncodeDigit(value: nat): char
    requires value < 32
  {
    if value < 10 then (48 + value) as char
    else if value < 18 then (65 + value - 10) as char
    else if value < 20 then (74 + value - 18) as char
    else if value < 22 then (77 + value - 20) as char
    else if value < 27 then (80 + value - 22) as char
    else (86 + value - 27) as char
  }

  function DecodeDigit(c: char): Option<nat> {
    if '0' <= c <= '9' then Some(c as int - 48)
    else if 'A' <= c <= 'H' then Some(c as int - 65 + 10)
    else if 'J' <= c <= 'K' then Some(c as int - 74 + 18)
    else if 'M' <= c <= 'N' then Some(c as int - 77 + 20)
    else if 'P' <= c <= 'T' then Some(c as int - 80 + 22)
    else if 'V' <= c <= 'Z' then Some(c as int - 86 + 27)
    else None
  }

  function UpperCase(c: char): char {
    if 'a' <= c <= 'z' then (c as int - 32) as char else c
  }

  lemma DigitRoundTrip(value: nat)
    requires value < 32
    ensures UpperCase(EncodeDigit(value)) == EncodeDigit(value)
    ensures DecodeDigit(EncodeDigit(value)) == Some(value)
  {
  }

  lemma DigitRead(c: char)
    requires DecodeDigit(c).Some?
    ensures DecodeDigit(c).value < 32 && EncodeDigit(DecodeDigit(c).value) == c
  {
  }

  // --- A run of digits ------------------------------------------------------------------------------

  function Power(digits: nat): nat {
    if digits == 0 then 1 else 32 * Power(digits - 1)
  }

  function DigitsOf(n: nat, digits: nat): (text: string)
    ensures |text| == digits
  {
    if digits == 0 then [] else DigitsOf(n / 32, digits - 1) + [EncodeDigit(n % 32)]
  }

  function ReadDigits(text: string): Option<nat> {
    if text == [] then Some(0)
    else
      var before, digit := ReadDigits(text[..|text| - 1]), DecodeDigit(UpperCase(text[|text| - 1]));
      if before.Some? && digit.Some? then Some(32 * before.value + digit.value) else None
  }

  function UpperText(text: string): string {
    seq(|text|, i requires 0 <= i < |text| => UpperCase(text[i]))
  }

  lemma {:induction false} DigitsRead(n: nat, digits: nat)
    requires n < Power(digits)
    ensures ReadDigits(DigitsOf(n, digits)) == Some(n)
  {
    hide DecodeDigit, EncodeDigit, UpperCase;
    if digits > 0 {
      var text := DigitsOf(n, digits);
      DigitsRead(n / 32, digits - 1);
      DigitRoundTrip(n % 32);
      assert text[..digits - 1] == DigitsOf(n / 32, digits - 1);
    }
  }

  lemma DigitsStep(value: nat, digit: nat, digits: nat)
    requires value < Power(digits) && digit < 32
    ensures 32 * value + digit < Power(digits + 1)
    ensures DigitsOf(32 * value + digit, digits + 1) == DigitsOf(value, digits) + [EncodeDigit(digit)]
  {
    assert (32 * value + digit) / 32 == value && (32 * value + digit) % 32 == digit;
  }

  lemma {:induction false} ReadIsDigits(text: string)
    requires ReadDigits(text).Some?
    ensures ReadDigits(text).value < Power(|text|)
    ensures DigitsOf(ReadDigits(text).value, |text|) == UpperText(text)
  {
    hide DecodeDigit, EncodeDigit, UpperCase;
    if text != [] {
      var shorter := text[..|text| - 1];
      ReadIsDigits(shorter);
      DigitRead(UpperCase(text[|text| - 1]));
      DigitsStep(ReadDigits(shorter).value, DecodeDigit(UpperCase(text[|text| - 1])).value, |shorter|);
      assert UpperText(text) == UpperText(shorter) + [UpperCase(text[|text| - 1])];
    }
  }

  /** The value of a run whose first digit is `first` is below the next one's. */
  lemma {:induction false} BoundedByFirst(text: string)
    requires text != [] && ReadDigits(text).Some?
    ensures DecodeDigit(UpperCase(text[0])).Some?
    ensures ReadDigits(text).value < (DecodeDigit(UpperCase(text[0])).value + 1) * Power(|text| - 1)
  {
    var shorter := text[..|text| - 1];
    DigitRead(UpperCase(text[|text| - 1]));
    if shorter != [] {
      BoundedByFirst(shorter);
      var next := DecodeDigit(UpperCase(text[0])).value + 1;
      assert shorter[0] == text[0];
      OneMoreDigit(ReadDigits(shorter).value, DecodeDigit(UpperCase(text[|text| - 1])).value, next,
          Power(|shorter| - 1));
    }
  }

  lemma OneMoreDigit(value: nat, digit: nat, next: nat, power: nat)
    requires value < next * power && digit < 32
    ensures 32 * value + digit < next * (32 * power)
  {
    assert next * (32 * power) == 32 * (next * power);
  }

  lemma {:induction false} FirstDigitBounded(n: nat, digits: nat)
    requires digits > 0 && n < 8 * Power(digits - 1)
    ensures DecodeDigit(UpperCase(DigitsOf(n, digits)[0])).Some?
    ensures DecodeDigit(UpperCase(DigitsOf(n, digits)[0])).value < 8
  {
    DigitRoundTrip(n % 32);
    if digits > 1 {
      FirstDigitBounded(n / 32, digits - 1);
    }
  }

  // --- The identifier ---------------------------------------------------------------------------------

  function Text(id: Id): string {
    DigitsOf(id, ENCODED_LEN)
  }

  /** Reads a text of any case; the first digit carries only three bits. */
  function Parse(text: string): Option<nat> {
    if |text| != ENCODED_LEN then None
    else
      var first := DecodeDigit(UpperCase(text[0]));
      if first.None? || first.value > 7 then None else ReadDigits(text)
  }

  lemma LimitIsPower()
    ensures 8 * Power(25) == ULID_LIMIT && Power(26) == 4 * ULID_LIMIT
  {
    assert Power(5) == 0x200_0000 by { assert Power(2) == 0x400; assert Power(4) == 0x10_0000; }
    assert Power(7) == 0x8_0000_0000 by { assert Power(6) == 0x4000_0000; }
    assert Power(10) == 0x4_0000_0000_0000 by {
      assert Power(8) == 0x100_0000_0000;
      assert Power(9) == 0x2000_0000_0000;
    }
    assert Power(13) == 0x2_0000_0000_0000_0000 by {
      assert Power(11) == 0x80_0000_0000_0000;
      assert Power(12) == 0x1000_0000_0000_0000;
    }
    assert Power(16) == 0x1_0000_0000_0000_0000_0000 by {
      assert Power(14) == 0x40_0000_0000_0000_0000;
      assert Power(15) == 0x800_0000_0000_0000_0000;
    }
    assert Power(19) == 0x8000_0000_0000_0000_0000_0000 by {
      assert Power(17) == 0x20_0000_0000_0000_0000_0000;
      assert Power(18) == 0x400_0000_0000_0000_0000_0000;
    }
    assert Power(22) == 0x4000_0000_0000_0000_0000_0000_0000 by {
      assert Power(20) == 0x10_0000_0000_0000_0000_0000_0000;
      assert Power(21) == 0x200_0000_0000_0000_0000_0000_0000;
    }
    assert Power(25) == 0x2000_0000_0000_0000_0000_0000_0000_0000 by {
      assert Power(23) == 0x8_0000_0000_0000_0000_0000_0000_0000;
      assert Power(24) == 0x100_0000_0000_0000_0000_0000_0000_0000;
    }
  }

  /** Every identifier is read back from its text. */
  lemma TextRoundTrip(id: Id)
    ensures Parse(Text(id)) == Some(id)
  {
    LimitIsPower();
    DigitsRead(id, ENCODED_LEN);
    FirstDigitBounded(id, ENCODED_LEN);
  }

  /** What a text is read as is an identifier whose own text is the upper case of it: a text is the
      only one of its identifier exactly among the texts without a lower case letter. */
  lemma ParsedText(text: string)
    requires Parse(text).Some?
    ensures Parse(text).value < ULID_LIMIT
    ensures Text(Parse(text).value) == UpperText(text)
    ensures Text(Parse(text).value) == text <==> forall i :: 0 <= i < |text| ==> UpperCase(text[i]) == text[i]
  {
    hide Power, DigitsOf, DecodeDigit, EncodeDigit, UpperCase, ReadDigits;
    LimitIsPower();
    ReadIsDigits(text);
    BoundedByFirst(text);
    assert Power(25) * 8 == ULID_LIMIT;
    var first := DecodeDigit(UpperCase(text[0])).value;
    assert (first + 1) * Power(25) <= 8 * Power(25);
  }

  function Zeros(count: nat): (zeros: string)
    ensures |zeros| == count
  {
    seq(count, i => '0')
  }

  const UPPER := Zeros(25) + "A"
  const LOWER := Zeros(25) + "a"

  /** The case of the last letter does not matter. */
  lemma LastCaseIgnored(before: string, a: char, b: char)
    requires |before| == ENCODED_LEN - 1 && UpperCase(a) == UpperCase(b)
    ensures Parse(before + [a]) == Parse(before + [b])
  {
    hide DecodeDigit, UpperCase;
    assert (before + [a])[..|before|] == before == (before + [b])[..|before|];
  }

  lemma {:induction false} ZeroDigits(digits: nat)
    ensures DigitsOf(0, digits) == Zeros(digits)
  {
    if digits > 0 {
      ZeroDigits(digits - 1);
    }
  }

  lemma UpperIsTen()
    ensures Text(10) == UPPER
  {
    hide DecodeDigit;
    ZeroDigits(25);
    assert DigitsOf(10, 26) == DigitsOf(0, 25) + [EncodeDigit(10)];
  }

  /** Two texts that differ in case alone are read as one identifier. */
  lemma LowerCaseReadsTheSame()
    ensures UPPER != LOWER && Parse(UPPER) == Parse(LOWER) == Some(10)
  {
    hide DecodeDigit, EncodeDigit, Parse, DigitsOf, Zeros;
    assert UPPER[|Zeros(25)|] != LOWER[|Zeros(25)|];
    UpperIsTen();
    TextRoundTrip(10);
    LastCaseIgnored(Zeros(25), 'A', 'a');
  }
}
