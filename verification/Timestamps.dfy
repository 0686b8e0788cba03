/** Timestamps and durations as texts: what is read is exactly what the numbers are written as. */
module Timestamps {
  import opened Wrappers
  import opened TextTools
  import opened Resources

  function Digit(n: nat): char
    requires n < 10
  {
    "0123456789"[n]
  }

  /** The last `width` decimal digits of a number, zeros in front. */
  function Padded(n: nat, width: nat): (s: string)
    ensures |s| == width
  {
    if width == 0 then "" else Padded(n / 10, width - 1) + [Digit(n % 10)]
  }

  lemma {:induction false} DigitIff(c: char, n: nat)
    requires n < 10
    ensures c == Digit(n) <==> IsDigit(c) && c as int - '0' as int == n
  {
  }

  lemma {:induction false} DecimalIff(digits: string, n: nat)
    ensures Decimal(digits) == Some(n) <==> n < Pow10(|digits|) && digits == Padded(n, |digits|)
    decreases |digits|
  {
    if digits != "" {
      var front, last := digits[..|digits| - 1], digits[|digits| - 1];
      assert digits == front + [last];
      DecimalIff(front, n / 10);
      DigitIff(last, n % 10);
      if n < Pow10(|digits|) && digits == Padded(n, |digits|) {
        assert front == Padded(n / 10, |front|) && last == Digit(n % 10);
      }
      if Decimal(digits) == Some(n) {
        assert Decimal(front).Some?;
        DecimalIff(front, Decimal(front).value);
        assert n / 10 == Decimal(front).value;
      }
    }
  }

  // ---------- timestamps ----------

  function Seconds(m: Moment): (s: string)
    ensures |s| == 19
  {
    Padded(m.year, 4) + "-" + Padded(m.month, 2) + "-" + Padded(m.day, 2) + "T"
    + Padded(m.hour, 2) + ":" + Padded(m.minute, 2) + ":" + Padded(m.second, 2)
  }

  /** The two spellings of a moment: with milliseconds, or without when there are none. */
  predicate Spells(value: string, m: Moment) {
    value == Seconds(m) + "." + Padded(m.millis, 3) + "Z" || (m.millis == 0 && value == Seconds(m) + "Z")
  }

  lemma {:induction false} SecondsIff(text: string, m: Moment)
    requires |text| == 19
    ensures text == Seconds(m) <==>
            && text[..4] == Padded(m.year, 4) && text[4] == '-' && text[5..7] == Padded(m.month, 2) && text[7] == '-'
            && text[8..10] == Padded(m.day, 2) && text[10] == 'T'
            && text[11..13] == Padded(m.hour, 2) && text[13] == ':'
            && text[14..16] == Padded(m.minute, 2) && text[16] == ':' && text[17..] == Padded(m.second, 2)
  {
    assert text == text[..4] + [text[4]] + text[5..7] + [text[7]] + text[8..10] + [text[10]]
                   + text[11..13] + [text[13]] + text[14..16] + [text[16]] + text[17..];
  }

  lemma {:induction false} LongIff(value: string, m: Moment)
    ensures value == Seconds(m) + "." + Padded(m.millis, 3) + "Z" <==>
            && |value| == 24 && value[..19] == Seconds(m) && value[19] == '.' && value[20..23] == Padded(m.millis, 3)
            && value[23] == 'Z'
  {
    if |value| == 24 {
      assert value == value[..19] + [value[19]] + value[20..23] + [value[23]];
    }
  }

  lemma {:induction false} ShortIff(value: string, m: Moment)
    ensures value == Seconds(m) + "Z" <==> |value| == 20 && value[..19] == Seconds(m) && value[19] == 'Z'
  {
    if |value| == 20 {
      assert value == value[..19] + [value[19]];
    }
  }

  predicate InRange(m: Moment) {
    && 1 <= m.year <= 9999 && 1 <= m.month <= 12 && 1 <= m.day <= DaysInMonth(m.year, m.month)
    && m.hour <= 23 && m.minute <= 59 && m.second <= 59 && m.millis <= 999
  }

  lemma {:induction false} NumberIff(digits: string, n: nat)
    requires n < Pow10(|digits|)
    ensures Decimal(digits) == Some(n) <==> digits == Padded(n, |digits|)
  {
    DecimalIff(digits, n);
  }

  lemma {:induction false} DateIff(value: string, m: Moment)
    requires |value| >= 20 && InRange(m)
    ensures Decimal(value[..4]) == Some(m.year) <==> value[..4] == Padded(m.year, 4)
    ensures Decimal(value[5..7]) == Some(m.month) <==> value[5..7] == Padded(m.month, 2)
    ensures Decimal(value[8..10]) == Some(m.day) <==> value[8..10] == Padded(m.day, 2)
  {
    Pow10Of(4);
    NumberIff(value[..4], m.year);
    NumberIff(value[5..7], m.month);
    NumberIff(value[8..10], m.day);
  }

  lemma {:induction false} TimeIff(value: string, m: Moment)
    requires |value| >= 20 && InRange(m)
    ensures Decimal(value[11..13]) == Some(m.hour) <==> value[11..13] == Padded(m.hour, 2)
    ensures Decimal(value[14..16]) == Some(m.minute) <==> value[14..16] == Padded(m.minute, 2)
    ensures Decimal(value[17..19]) == Some(m.second) <==> value[17..19] == Padded(m.second, 2)
  {
    Pow10Of(2);
    NumberIff(value[11..13], m.hour);
    NumberIff(value[14..16], m.minute);
    NumberIff(value[17..19], m.second);
  }

  lemma {:induction false} FieldsIff(value: string, m: Moment)
    requires |value| >= 20 && InRange(m)
    ensures value[..19] == Seconds(m) <==>
            && value[4] == '-' && value[7] == '-' && value[10] == 'T' && value[13] == ':' && value[16] == ':'
            && Decimal(value[..4]) == Some(m.year) && Decimal(value[5..7]) == Some(m.month)
            && Decimal(value[8..10]) == Some(m.day) && Decimal(value[11..13]) == Some(m.hour)
            && Decimal(value[14..16]) == Some(m.minute) && Decimal(value[17..19]) == Some(m.second)
  {
    var text := value[..19];
    assert text[..4] == value[..4] && text[5..7] == value[5..7] && text[8..10] == value[8..10];
    assert text[11..13] == value[11..13] && text[14..16] == value[14..16] && text[17..] == value[17..19];
    SecondsIff(text, m);
    DateIff(value, m);
    TimeIff(value, m);
  }

  lemma {:induction false} MillisIff(value: string, m: Moment)
    requires InRange(m)
    ensures Spells(value, m) <==>
            && (|value| == 24 || |value| == 20) && value[..19] == Seconds(m)
            && (if |value| == 24 then value[19] == '.' && value[23] == 'Z' && Decimal(value[20..23]) == Some(m.millis)
                else value[19] == 'Z' && m.millis == 0)
  {
    LongIff(value, m);
    ShortIff(value, m);
    if |value| == 24 {
      Pow10Of(3);
      NumberIff(value[20..23], m.millis);
    }
  }

  /** A text is read as a moment exactly when the moment exists, in the years 1 to 9999, and the text
      is one of its spellings. */
  lemma {:induction false} ParseIff(value: string, m: Moment)
    ensures ParseMoment(value) == Some(m) <==> InRange(m) && Spells(value, m)
  {
    MomentIsValid(value);
    if InRange(m) {
      MillisIff(value, m);
      if |value| >= 20 {
        FieldsIff(value, m);
      }
    }
  }

  /** Two spellings of one text are of one moment. */
  lemma {:induction false} SpellingIsUnique(value: string, a: Moment, b: Moment)
    requires InRange(a) && InRange(b) && Spells(value, a) && Spells(value, b)
    ensures a == b
  {
    ParseIff(value, a);
    ParseIff(value, b);
  }

  /** Moments as field-by-field comparison orders them have their spellings' numbers in that order. */
  lemma {:induction false} SpelledMillis(value: string, m: Moment)
    requires InRange(m) && Spells(value, m)
    ensures UtcTimestampMillis(value) == Some(Millis(m))
  {
    ParseIff(value, m);
  }

  lemma {:induction false} MillisOfSpelling(value: string)
    ensures UtcTimestampMillis(value).Some? <==> exists m :: InRange(m) && Spells(value, m)
  {
    if ParseMoment(value).Some? {
      ParseIff(value, ParseMoment(value).value);
    }
    if m :| InRange(m) && Spells(value, m) {
      ParseIff(value, m);
    }
  }
}
