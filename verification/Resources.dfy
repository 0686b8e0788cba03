/** Shared response checks: identifiers, bounded text and UTC timestamps. */
module Resources {
  import opened Wrappers
  import opened TextTools

  predicate IsUuid(value: string) {
    && |value| == 36
    && forall k :: 0 <= k < 36 ==> if k in [8, 13, 18, 23] then value[k] == '-' else IsHexDigit(value[k])
  }

  predicate HexRun(s: string, width: nat) {
    |s| == width && forall k :: 0 <= k < width ==> '0' <= s[k] <= '9' || 'a' <= s[k] <= 'f' || 'A' <= s[k] <= 'F'
  }

  /** A UUID is five runs of 8, 4, 4, 4 and 12 hexadecimal digits in either case, with hyphens between. */
  lemma {:induction false} UuidIff(value: string)
    ensures IsUuid(value) <==> exists a, b, c, d, e ::
              && HexRun(a, 8) && HexRun(b, 4) && HexRun(c, 4) && HexRun(d, 4) && HexRun(e, 12)
              && value == a + "-" + b + "-" + c + "-" + d + "-" + e
  {
    if IsUuid(value) {
      var a, b, c, d, e := value[..8], value[9..13], value[14..18], value[19..23], value[24..];
      assert HexRun(a, 8) && HexRun(b, 4) && HexRun(c, 4) && HexRun(d, 4) && HexRun(e, 12);
      assert value == a + "-" + b + "-" + c + "-" + d + "-" + e;
    }
  }

  predicate BoundedText(value: string, maxBytes: nat) {
    value != "" && Utf8Length(value) <= maxBytes && forall c :: c in value ==> !IsControl(c)
  }

  function Decimal(digits: string): (n: Option<nat>)
    ensures n.Some? ==> n.value < Pow10(|digits|)
  {
    if digits == "" then Some(0)
    else
      var last := digits[|digits| - 1];
      match Decimal(digits[..|digits| - 1])
      case None => None
      case Some(n) => if IsDigit(last) then Some(n * 10 + (last as int - '0' as int)) else None
  }

  function Pow10(n: nat): nat {
    if n == 0 then 1 else 10 * Pow10(n - 1)
  }

  predicate LeapYear(year: nat) {
    year % 4 == 0 && (year % 100 != 0 || year % 400 == 0)
  }

  function DaysInMonth(year: nat, month: nat): nat {
    if month in [1, 3, 5, 7, 8, 10, 12] then 31
    else if month in [4, 6, 9, 11] then 30
    else if month == 2 then (if LeapYear(year) then 29 else 28)
    else 0
  }

  const DAYS_BEFORE_MONTH := [0, 31, 59, 90, 120, 151, 181, 212, 243, 273, 304, 334]

  /** The days of the years before `year`. */
  function DaysBeforeYear(year: nat): nat
    requires 1 <= year
  {
    var prior := year - 1;
    prior * 365 + prior / 4 - prior / 100 + prior / 400
  }

  function DayNumber(year: nat, month: nat, day: nat): nat
    requires 1 <= year && 1 <= month <= 12 && 1 <= day
  {
    DaysBeforeYear(year)
    + DAYS_BEFORE_MONTH[month - 1] + (if LeapYear(year) && 2 < month then 1 else 0) + (day - 1)
  }

  const MAX_TIMESTAMP_MILLIS := 3_652_059 * 86_400_000

  datatype Moment = Moment(year: nat, month: nat, day: nat, hour: nat, minute: nat, second: nat, millis: nat)

  predicate ValidDate(m: Moment) {
    1 <= m.year && 1 <= m.month <= 12 && 1 <= m.day <= DaysInMonth(m.year, m.month)
  }

  predicate ValidMoment(m: Moment) {
    ValidDate(m) && m.hour <= 23 && m.minute <= 59 && m.second <= 59 && m.millis <= 999
  }

  function Millis(m: Moment): nat
    requires ValidDate(m)
  {
    (((DayNumber(m.year, m.month, m.day) * 24 + m.hour) * 60 + m.minute) * 60 + m.second) * 1000 + m.millis
  }

  /** `YYYY-MM-DDThh:mm:ssZ` with optional milliseconds. */
  function ParseMoment(value: string): Option<Moment> {
    var fraction := if |value| == 24 && value[19] == '.' && value[23] == 'Z' then Decimal(value[20..23])
                    else if |value| == 20 && value[19] == 'Z' then Some(0) else None;
    if fraction.None?
       || value[4] != '-' || value[7] != '-' || value[10] != 'T' || value[13] != ':' || value[16] != ':'
    then None
    else
      match (Decimal(value[..4]), Decimal(value[5..7]), Decimal(value[8..10]),
             Decimal(value[11..13]), Decimal(value[14..16]), Decimal(value[17..19]))
      case (Some(year), Some(month), Some(day), Some(hour), Some(minute), Some(second)) =>
        if year == 0 || !(1 <= month <= 12) || !(1 <= day <= DaysInMonth(year, month))
           || 23 < hour || 59 < minute || 59 < second then None
        else Some(Moment(year, month, day, hour, minute, second, fraction.value))
      case _ => None
  }

  /** The milliseconds since the start of year one. */
  function UtcTimestampMillis(value: string): Option<nat> {
    match ParseMoment(value)
    case Some(m) => MomentIsValid(value); Some(Millis(m))
    case None => None
  }

  lemma {:induction false} Pow10Of(n: nat)
    ensures Pow10(2) == 100 && Pow10(3) == 1000 && Pow10(4) == 10_000
  {
    assert Pow10(1) == 10 && Pow10(2) == 100 && Pow10(3) == 1000;
  }

  lemma {:induction false} MomentIsValid(value: string)
    ensures ParseMoment(value).Some? ==> ValidMoment(ParseMoment(value).value) && ParseMoment(value).value.year <= 9999
  {
    Pow10Of(4);
  }

  // ---------- what the numbers mean ----------

  function NextDate(year: nat, month: nat, day: nat): (nat, nat, nat) {
    if day < DaysInMonth(year, month) then (year, month, day + 1)
    else if month < 12 then (year, month + 1, 1)
    else (year + 1, 1, 1)
  }

  lemma {:induction false} EveryFourth(year: nat)
    requires 1 <= year
    ensures year / 4 == (year - 1) / 4 + (if year % 4 == 0 then 1 else 0)
  {
  }

  lemma {:induction false} Hundreds(x: nat, q: nat, r: nat)
    requires x == 100 * q + r && r < 100
    ensures x / 100 == q && x % 100 == r
  {
  }

  lemma {:induction false} FourHundreds(x: nat, q: nat, r: nat)
    requires x == 400 * q + r && r < 400
    ensures x / 400 == q && x % 400 == r
  {
  }

  lemma {:induction false} EveryHundredth(year: nat)
    requires 1 <= year
    ensures year / 100 == (year - 1) / 100 + (if year % 100 == 0 then 1 else 0)
  {
    var q, r := year / 100, year % 100;
    assert year == 100 * q + r;
    if r == 0 {
      Hundreds(year - 1, q - 1, 99);
    } else {
      Hundreds(year - 1, q, r - 1);
    }
  }

  lemma {:induction false} EveryFourHundredth(year: nat)
    requires 1 <= year
    ensures year / 400 == (year - 1) / 400 + (if year % 400 == 0 then 1 else 0)
  {
    var q, r := year / 400, year % 400;
    assert year == 400 * q + r;
    if r == 0 {
      FourHundreds(year - 1, q - 1, 399);
    } else {
      FourHundreds(year - 1, q, r - 1);
    }
  }

  lemma {:induction false} CenturiesAreFourths(year: nat)
    ensures year % 100 == 0 ==> year % 4 == 0
    ensures year % 400 == 0 ==> year % 100 == 0
  {
    if year % 100 == 0 {
      assert year == 4 * (25 * (year / 100));
    }
    if year % 400 == 0 {
      Hundreds(year, 4 * (year / 400), 0);
    }
  }

  lemma {:induction false} YearLength(year: nat)
    requires 1 <= year
    ensures DaysBeforeYear(year + 1) == DaysBeforeYear(year) + 365 + (if LeapYear(year) then 1 else 0)
  {
    EveryFourth(year);
    EveryHundredth(year);
    EveryFourHundredth(year);
    CenturiesAreFourths(year);
  }

  /** The first day has number zero, and each day's number is one more than the day's before. */
  lemma {:induction false} DaysAreCounted(year: nat, month: nat, day: nat)
    requires 1 <= year && 1 <= month <= 12 && 1 <= day <= DaysInMonth(year, month)
    ensures DayNumber(1, 1, 1) == 0
    ensures
      var next := NextDate(year, month, day);
      && 1 <= next.1 <= 12 && 1 <= next.2 <= DaysInMonth(next.0, next.1)
      && DayNumber(next.0, next.1, next.2) == DayNumber(year, month, day) + 1
  {
    YearLength(year);
  }

  /** The days of a year lie within the year, in the order of months and days. */
  lemma {:induction false} DaysOfYear(year: nat, month: nat, day: nat)
    requires 1 <= year && 1 <= month <= 12 && 1 <= day <= DaysInMonth(year, month)
    ensures DaysBeforeYear(year) <= DayNumber(year, month, day) < DaysBeforeYear(year + 1)
    ensures month < 12 ==> DayNumber(year, month, day) < DayNumber(year, month + 1, 1)
  {
    YearLength(year);
  }

  lemma {:induction false} YearsInOrder(early: nat, late: nat)
    requires 1 <= early <= late
    ensures DaysBeforeYear(early) <= DaysBeforeYear(late)
    decreases late - early
  {
    if early < late {
      YearLength(late - 1);
      YearsInOrder(early, late - 1);
    }
  }

  lemma {:induction false} MonthsInOrder(year: nat, early: nat, late: nat)
    requires 1 <= year && 1 <= early <= late <= 12
    ensures DayNumber(year, early, 1) <= DayNumber(year, late, 1)
    decreases late - early
  {
    if early < late {
      DaysOfYear(year, late - 1, 1);
      MonthsInOrder(year, early, late - 1);
    }
  }

  predicate EarlierDate(a: Moment, b: Moment) {
    a.year < b.year || (a.year == b.year && (a.month < b.month || (a.month == b.month && a.day < b.day)))
  }

  lemma {:induction false} DatesInOrder(a: Moment, b: Moment)
    requires ValidDate(a) && ValidDate(b) && EarlierDate(a, b)
    ensures DayNumber(a.year, a.month, a.day) < DayNumber(b.year, b.month, b.day)
  {
    if a.year < b.year {
      DaysOfYear(a.year, a.month, a.day);
      YearsInOrder(a.year + 1, b.year);
      DaysOfYear(b.year, b.month, b.day);
    } else if a.month < b.month {
      DaysOfYear(a.year, a.month, a.day);
      MonthsInOrder(a.year, a.month + 1, b.month);
    }
  }

  function TimeOfDay(m: Moment): nat {
    ((m.hour * 60 + m.minute) * 60 + m.second) * 1000 + m.millis
  }

  predicate Earlier(a: Moment, b: Moment) {
    EarlierDate(a, b) || (!EarlierDate(b, a) && EarlierTime(a, b))
  }

  predicate EarlierTime(a: Moment, b: Moment) {
    a.hour < b.hour || (a.hour == b.hour &&
      (a.minute < b.minute || (a.minute == b.minute &&
        (a.second < b.second || (a.second == b.second && a.millis < b.millis)))))
  }

  lemma {:induction false} MillisOfDay(m: Moment)
    requires ValidMoment(m)
    ensures Millis(m) == DayNumber(m.year, m.month, m.day) * 86_400_000 + TimeOfDay(m)
    ensures TimeOfDay(m) < 86_400_000
  {
  }

  /** One moment is earlier than another exactly when its number is smaller, compared field by field
      from the year down; so differences of numbers are lengths of time. */
  lemma {:induction false} MomentsInOrder(a: Moment, b: Moment)
    requires ValidMoment(a) && ValidMoment(b)
    ensures Earlier(a, b) <==> Millis(a) < Millis(b)
  {
    MillisOfDay(a);
    MillisOfDay(b);
    if EarlierDate(a, b) { DatesInOrder(a, b); }
    if EarlierDate(b, a) { DatesInOrder(b, a); }
  }

  // ---------- the range ----------

  lemma {:induction false} DayNumberBound(year: nat, month: nat, day: nat)
    requires 1 <= year <= 9999 && 1 <= month <= 12 && 1 <= day <= DaysInMonth(year, month)
    ensures DayNumber(year, month, day) < 3_652_059
  {
    DaysOfYear(year, month, day);
    YearsInOrder(year + 1, 10_000);
  }

  /** Every accepted timestamp lies in the years 1 to 9999. */
  lemma {:induction false} TimestampBound(value: string)
    ensures UtcTimestampMillis(value).Some? ==> UtcTimestampMillis(value).value < MAX_TIMESTAMP_MILLIS
  {
    if ParseMoment(value).Some? {
      var m := ParseMoment(value).value;
      MomentIsValid(value);
      DayNumberBound(m.year, m.month, m.day);
      MillisOfDay(m);
    }
  }
}
