/** Signing windows against policy limits, from the texts both are written as. */
module PolicyWindows {
  import opened Wrappers
  import opened TextTools
  import opened Resources
  import opened Timestamps
  import opened Governance

  /** A number in decimal, without leading zeros. */
  function Written(n: nat): (s: string)
    ensures s != ""
  {
    if n < 10 then [Digit(n)] else Written(n / 10) + [Digit(n % 10)]
  }

  /** The six units and their lengths in milliseconds. */
  predicate Unit(suffix: string, millis: nat) {
    || (suffix == "ms" && millis == 1)
    || (suffix == "s" && millis == 1000)
    || (suffix == "m" && millis == 60 * 1000)
    || (suffix == "h" && millis == 60 * 60 * 1000)
    || (suffix == "d" && millis == 24 * 60 * 60 * 1000)
    || (suffix == "w" && millis == 7 * 24 * 60 * 60 * 1000)
  }

  /** `n` units of so many milliseconds, in at most 32 characters. */
  predicate Names(value: string, n: nat, suffix: string, millis: nat) {
    0 < n && Unit(suffix, millis) && value == Written(n) + suffix && |value| <= 32
  }

  predicate AllDigits(s: string) {
    forall k :: 0 <= k < |s| ==> IsDigit(s[k])
  }

  lemma {:induction false} WrittenDigits(n: nat)
    ensures AllDigits(Written(n)) && Amount(Written(n)) == n
    ensures 0 < n ==> Written(n)[0] != '0'
  {
    DigitIff(Digit(n % 10), n % 10);
    if n < 10 {
      assert Written(n)[..0] == "";
    } else {
      WrittenDigits(n / 10);
      var front := Written(n / 10);
      assert Written(n) == front + [Digit(n % 10)];
      assert (front + [Digit(n % 10)])[..|front|] == front;
    }
  }

  lemma {:induction false} AmountIsWritten(digits: string)
    requires digits != "" && AllDigits(digits) && digits[0] != '0'
    ensures 0 < Amount(digits) && digits == Written(Amount(digits))
  {
    var last := digits[|digits| - 1];
    DigitIff(last, last as int - '0' as int);
    if |digits| == 1 {
      assert digits[..0] == "" && digits == [last];
    } else {
      var front := digits[..|digits| - 1];
      assert digits == front + [last] && front[0] == digits[0];
      AmountIsWritten(front);
    }
  }

  lemma {:induction false} DigitsEnd(digits: string, rest: string)
    requires AllDigits(digits) && (rest == "" || !IsDigit(rest[0]))
    ensures DigitCount(digits + rest) == |digits|
  {
    if digits == "" {
      assert digits + rest == rest;
    } else {
      assert (digits + rest)[1..] == digits[1..] + rest;
      DigitsEnd(digits[1..], rest);
    }
  }

  lemma {:induction false} AsciiBytes(s: string)
    requires forall k :: 0 <= k < |s| ==> s[k] as int < 0x80
    ensures Utf8Length(s) == |s|
  {
    if s != "" {
      AsciiBytes(s[1..]);
    }
  }

  lemma {:induction false} UnitLetters(suffix: string, millis: nat)
    requires Unit(suffix, millis)
    ensures suffix != "" && Multiplier(suffix) == Some(millis)
    ensures forall k :: 0 <= k < |suffix| ==> 'a' <= suffix[k] <= 'z'
  {
  }

  lemma {:induction false} DurationParts(value: string, n: nat, suffix: string, millis: nat)
    requires Names(value, n, suffix, millis)
    ensures DigitCount(value) == |Written(n)|
    ensures value[..|Written(n)|] == Written(n) && value[|Written(n)|..] == suffix
  {
    WrittenDigits(n);
    UnitLetters(suffix, millis);
    DigitsEnd(Written(n), suffix);
  }

  lemma {:induction false} DurationCharacters(value: string, n: nat, suffix: string, millis: nat)
    requires Names(value, n, suffix, millis)
    ensures forall k :: 0 <= k < |value| ==> IsDigit(value[k]) || 'a' <= value[k] <= 'z'
    ensures value != "" && value[0] != '0'
  {
    WrittenDigits(n);
    UnitLetters(suffix, millis);
    assert forall k :: 0 <= k < |value| ==>
      value[k] == if k < |Written(n)| then Written(n)[k] else suffix[k - |Written(n)|];
  }

  lemma {:induction false} PlainText(value: string)
    requires value != "" && forall k :: 0 <= k < |value| ==> IsDigit(value[k]) || 'a' <= value[k] <= 'z'
    ensures Utf8Length(value) == |value| && Trim(value) == value
  {
    AsciiBytes(value);
    TrimmedIff(value);
  }

  /** Every written duration is valid, and its length is the number of its units. */
  lemma {:induction false} NamedDuration(value: string, n: nat, suffix: string, millis: nat)
    requires Names(value, n, suffix, millis)
    ensures ValidPolicyDuration(value) && TrueMillis(value) == n * millis
  {
    DurationParts(value, n, suffix, millis);
    DurationCharacters(value, n, suffix, millis);
    PlainText(value);
    UnitLetters(suffix, millis);
    WrittenDigits(n);
  }

  /** A duration is valid exactly when it is a positive number without leading zeros and one of the
      six units, in at most 32 bytes. */
  lemma {:induction false} DurationIff(value: string)
    ensures ValidPolicyDuration(value) <==> exists n, suffix, millis :: Names(value, n, suffix, millis)
  {
    if ValidPolicyDuration(value) {
      var count := DigitCount(value);
      var digits, suffix := value[..count], value[count..];
      AmountIsWritten(digits);
      assert value == digits + suffix;
      assert Names(value, Amount(digits), suffix, Multiplier(suffix).value);
    }
    if n, suffix, millis :| Names(value, n, suffix, millis) {
      NamedDuration(value, n, suffix, millis);
    }
  }

  lemma {:induction false} NamedLimit(value: string, n: nat, suffix: string, millis: nat)
    requires Names(value, n, suffix, millis)
    ensures PolicyDurationMillis(value) == if n * millis <= I64_MAX then Some(n * millis) else None
  {
    NamedDuration(value, n, suffix, millis);
    DurationIsExact(value);
  }

  /** A request for a window between two written moments is let through exactly when the end is later
      and the count, if any, is in range. */
  lemma {:induction false} WrittenRequest(q: Request, from: Moment, to: Moment, start: string, end: string)
    requires InRange(from) && Spells(start, from) && InRange(to) && Spells(end, to)
    requires q.window == Some(Window(Some(start), end))
    ensures RequestOk(q) <==>
            Earlier(from, to) && (q.requestedSignings.Some? ==> 1 <= q.requestedSignings.value <= 1_000_000)
  {
    SpelledMillis(start, from);
    SpelledMillis(end, to);
    MomentsInOrder(from, to);
  }

  lemma {:induction false} Measured(q: Request, policy: Policy, defaultStart: Option<nat>,
                                    from: nat, to: nat, limit: nat)
    requires q.window.Some? && policy.constraints.maxWindowDuration.Some?
    requires WindowStart(q.window.value, defaultStart) == Some(from)
    requires UtcTimestampMillis(q.window.value.end) == Some(to)
    requires PolicyDurationMillis(policy.constraints.maxWindowDuration.value)
             == if limit <= I64_MAX then Some(limit) else None
    ensures LimitsFit(q, policy, defaultStart) <==>
            SigningsFit(q, policy) && (from < to <= from + limit || I64_MAX < limit)
  {
  }

  /** A window between two written moments fits a written limit exactly when the time between them is
      no longer than that many units. */
  lemma {:induction false} WrittenWindow(q: Request, policy: Policy, defaultStart: Option<nat>,
                                         from: Moment, to: Moment, start: string, end: string,
                                         n: nat, suffix: string, millis: nat)
    requires InRange(from) && Spells(start, from) && InRange(to) && Spells(end, to) && Earlier(from, to)
    requires q.window == Some(Window(Some(start), end))
    requires policy.constraints.maxWindowDuration.Some?
    requires Names(policy.constraints.maxWindowDuration.value, n, suffix, millis)
    ensures LimitsFit(q, policy, defaultStart) <==>
            SigningsFit(q, policy) && Millis(to) - Millis(from) <= n * millis
  {
    SpelledMillis(start, from);
    SpelledMillis(end, to);
    MomentsInOrder(from, to);
    TimestampBound(end);
    NamedLimit(policy.constraints.maxWindowDuration.value, n, suffix, millis);
    Measured(q, policy, defaultStart, Millis(from), Millis(to), n * millis);
  }

  /** A window that starts now is measured from the given instant, and has to end after it unless the
      limit is too long to measure. */
  lemma {:induction false} WindowFromNow(q: Request, policy: Policy, now: nat, to: Moment, end: string,
                                         n: nat, suffix: string, millis: nat)
    requires InRange(to) && Spells(end, to)
    requires q.window == Some(Window(None, end))
    requires policy.constraints.maxWindowDuration.Some?
    requires Names(policy.constraints.maxWindowDuration.value, n, suffix, millis)
    ensures LimitsFit(q, policy, Some(now)) <==>
            SigningsFit(q, policy) && (now < Millis(to) <= now + n * millis || 0x7FFF_FFFF_FFFF_FFFF < n * millis)
  {
    SpelledMillis(end, to);
    NamedLimit(policy.constraints.maxWindowDuration.value, n, suffix, millis);
    Measured(q, policy, Some(now), now, Millis(to), n * millis);
  }
}
