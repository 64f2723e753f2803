/**
 Timestamps of the auction: the Z-only profile of section 5.6 of RFC 3339 that
 `parseUtcTimestamp` accepts, with the calendar arithmetic of ECMA-262 behind `Date.UTC`.
 */
module UtcTime {
  import opened Wrappers
  import opened Utf16

  // --- the calendar of ECMA-262 -----------------------------------------------------------

  predicate IsLeapYear(year: int) {
    (year % 4 == 0 && year % 100 != 0) || year % 400 == 0
  }

  function DaysInMonth(year: int, month: int): nat {
    if month == 2 then (if IsLeapYear(year) then 29 else 28)
    else if month == 4 || month == 6 || month == 9 || month == 11 then 30
    else if 1 <= month <= 12 then 31 else 0
  }

  /** DayFromYear: the number of days from 1970-01-01 to the first day of `year`. */
  function DayFromYear(year: int): int {
    365 * (year - 1970) + (year - 1969) / 4 - (year - 1901) / 100 + (year - 1601) / 400
  }

  /** The number of days of `year` that precede `month`; month 13 stands for the next year. */
  function DaysBeforeMonth(year: int, month: int): nat
    requires 1 <= month <= 13
  {
    [0, 31, 59, 90, 120, 151, 181, 212, 243, 273, 304, 334, 365][month - 1]
    + if month > 2 && IsLeapYear(year) then 1 else 0
  }

  lemma MonthLength(year: int, month: int)
    requires 1 <= month <= 12
    ensures DaysBeforeMonth(year, month + 1) == DaysBeforeMonth(year, month) + DaysInMonth(year, month)
  {
  }

  function DaysInYear(year: int): nat { if IsLeapYear(year) then 366 else 365 }

  /** MakeDay for a calendar date. */
  function DayNumber(year: int, month: int, day: int): int
    requires 1 <= month <= 12
  {
    DayFromYear(year) + DaysBeforeMonth(year, month) + day - 1
  }

  lemma QuotientStep(x: int)
    ensures (x + 1) / 4 == x / 4 + (if (x + 1) % 4 == 0 then 1 else 0)
    ensures (x + 1) / 100 == x / 100 + (if (x + 1) % 100 == 0 then 1 else 0)
    ensures (x + 1) / 400 == x / 400 + (if (x + 1) % 400 == 0 then 1 else 0)
  {
  }

  lemma Residue4(year: int)
    ensures (year - 1968) % 4 == year % 4
  {
    assert year - 1968 == 4 * (year / 4 - 492) + year % 4;
  }

  lemma Residue100(year: int)
    ensures (year - 1900) % 100 == year % 100
  {
    assert year - 1900 == 100 * (year / 100 - 19) + year % 100;
  }

  lemma Residue400(year: int)
    ensures (year - 1600) % 400 == year % 400
  {
    assert year - 1600 == 400 * (year / 400 - 4) + year % 400;
  }

  lemma LeapCount(year: int)
    ensures (if year % 4 == 0 then 1 else 0) - (if year % 100 == 0 then 1 else 0)
            + (if year % 400 == 0 then 1 else 0) == if IsLeapYear(year) then 1 else 0
  {
    Divisors(year);
  }

  lemma Divisors(year: int)
    ensures year % 400 == 0 ==> year % 100 == 0
    ensures year % 100 == 0 ==> year % 4 == 0
  {
    Multiples(year / 400);
    Multiples(year / 100);
  }

  lemma Multiples(q: int)
    ensures 400 * q % 100 == 0
    ensures 100 * q % 4 == 0
  {
    assert 400 * q == 100 * (4 * q);
    assert 100 * q == 4 * (25 * q);
  }

  lemma YearLength(year: int)
    ensures DayFromYear(year + 1) == DayFromYear(year) + DaysInYear(year)
  {
    QuotientStep(year - 1969);
    QuotientStep(year - 1901);
    QuotientStep(year - 1601);
    Residue4(year);
    Residue100(year);
    Residue400(year);
    LeapCount(year);
  }

  lemma {:induction false} YearsAdvance(a: int, b: int)
    requires a <= b
    ensures DayFromYear(a) + 365 * (b - a) <= DayFromYear(b)
    decreases b - a
  {
    if a < b {
      YearsAdvance(a, b - 1);
      YearLength(b - 1);
    }
  }

  lemma {:induction false} MonthsAdvance(year: int, a: int, b: int)
    requires 1 <= a < b <= 13
    ensures DaysBeforeMonth(year, a) + DaysInMonth(year, a) <= DaysBeforeMonth(year, b)
    decreases b - a
  {
    MonthLength(year, b - 1);
    if a + 1 < b {
      MonthsAdvance(year, a, b - 1);
    }
  }

  /** The fields of an instant, in the order in which they are compared. */
  datatype Civil = Civil(year: int, month: int, day: int, hour: int, minute: int, second: int)

  predicate ValidDate(c: Civil) {
    1 <= c.month <= 12 && 1 <= c.day <= DaysInMonth(c.year, c.month)
  }

  predicate ValidClock(c: Civil) {
    0 <= c.hour <= 23 && 0 <= c.minute <= 59 && 0 <= c.second <= 59
  }

  function SecondOfDay(c: Civil): int { c.hour * 3600 + c.minute * 60 + c.second }

  /** The seconds since the epoch, with the year taken literally. */
  function CivilSeconds(c: Civil): int
    requires 1 <= c.month <= 12
  {
    DayNumber(c.year, c.month, c.day) * 86400 + SecondOfDay(c)
  }

  /** The date after a valid date. */
  function NextDate(c: Civil): Civil {
    if c.day < DaysInMonth(c.year, c.month) then c.(day := c.day + 1)
    else if c.month < 12 then c.(month := c.month + 1, day := 1)
    else c.(year := c.year + 1, month := 1, day := 1)
  }

  /** The second after a valid date and time. */
  function NextSecond(c: Civil): Civil {
    if c.second < 59 then c.(second := c.second + 1)
    else if c.minute < 59 then c.(minute := c.minute + 1, second := 0)
    else if c.hour < 23 then c.(hour := c.hour + 1, minute := 0, second := 0)
    else NextDate(c).(hour := 0, minute := 0, second := 0)
  }

  lemma NextDateIsNextDay(c: Civil)
    requires ValidDate(c)
    ensures var d := NextDate(c);
            ValidDate(d) && DayNumber(d.year, d.month, d.day) == DayNumber(c.year, c.month, c.day) + 1
  {
    MonthLength(c.year, c.month);
    YearLength(c.year);
  }

  lemma WithinDay(c: Civil)
    requires ValidDate(c) && ValidClock(c) && SecondOfDay(c) < 86399
    ensures var d := NextSecond(c);
            && d.year == c.year && d.month == c.month && d.day == c.day && ValidClock(d)
            && SecondOfDay(d) == SecondOfDay(c) + 1
  {
  }

  lemma AcrossMidnight(c: Civil)
    requires ValidDate(c) && ValidClock(c) && SecondOfDay(c) >= 86399
    ensures var d := NextSecond(c);
            && ValidDate(d) && ValidClock(d) && SecondOfDay(d) == 0 && SecondOfDay(c) == 86399
            && DayNumber(d.year, d.month, d.day) == DayNumber(c.year, c.month, c.day) + 1
  {
    NextDateIsNextDay(c);
  }

  /** The count of seconds goes up by one from each second to the next. */
  lemma SecondsCount(c: Civil)
    requires ValidDate(c) && ValidClock(c)
    ensures var d := NextSecond(c); ValidDate(d) && ValidClock(d) && CivilSeconds(d) == CivilSeconds(c) + 1
  {
    if SecondOfDay(c) < 86399 { WithinDay(c); } else { AcrossMidnight(c); }
  }

  /** `Date.UTC` takes years 0 to 99 to mean 1900 to 1999. */
  function Shifted(c: Civil): Civil {
    if 0 <= c.year <= 99 then c.(year := 1900 + c.year) else c
  }

  /** `Date.UTC` in milliseconds. */
  function DateUtc(c: Civil): int
    requires 1 <= c.month <= 12
  {
    1000 * CivilSeconds(Shifted(c))
  }

  /** Lexicographic order of the fields. */
  predicate CivilLess(a: Civil, b: Civil) {
    a.year < b.year || (a.year == b.year && (
    a.month < b.month || (a.month == b.month && (
    a.day < b.day || (a.day == b.day && (
    a.hour < b.hour || (a.hour == b.hour && (
    a.minute < b.minute || (a.minute == b.minute &&
    a.second < b.second)))))))))
  }

  lemma DayWithinYear(c: Civil)
    requires ValidDate(c)
    ensures DayFromYear(c.year) <= DayNumber(c.year, c.month, c.day) < DayFromYear(c.year + 1)
  {
    YearLength(c.year);
    MonthsAdvance(c.year, c.month, 13);
  }

  lemma DayOrder(a: Civil, b: Civil)
    requires ValidDate(a) && ValidDate(b)
    requires a.year < b.year
          || (a.year == b.year && (a.month < b.month || (a.month == b.month && a.day < b.day)))
    ensures DayNumber(a.year, a.month, a.day) < DayNumber(b.year, b.month, b.day)
  {
    if a.year < b.year {
      DayWithinYear(a);
      DayWithinYear(b);
      YearsAdvance(a.year + 1, b.year);
    } else if a.month < b.month {
      MonthsAdvance(a.year, a.month, b.month);
    }
  }

  lemma SecondsOrder(a: Civil, b: Civil)
    requires ValidDate(a) && ValidDate(b) && ValidClock(a) && ValidClock(b) && CivilLess(a, b)
    ensures CivilSeconds(a) < CivilSeconds(b)
  {
    if (a.year, a.month, a.day) != (b.year, b.month, b.day) {
      DayOrder(a, b);
    }
  }

  lemma CivilTrichotomy(a: Civil, b: Civil)
    ensures CivilLess(a, b) || a == b || CivilLess(b, a)
  {
  }

  /** Seconds since the epoch order valid instants exactly as their fields do. */
  lemma SecondsIsomorphism(a: Civil, b: Civil)
    requires ValidDate(a) && ValidDate(b) && ValidClock(a) && ValidClock(b)
    ensures CivilSeconds(a) < CivilSeconds(b) <==> CivilLess(a, b)
    ensures CivilSeconds(a) == CivilSeconds(b) <==> a == b
  {
    CivilTrichotomy(a, b);
    if CivilLess(a, b) {
      SecondsOrder(a, b);
    } else if CivilLess(b, a) {
      SecondsOrder(b, a);
    }
  }

  // --- reading a Date back -----------------------------------------------------------------

  /** YearFromTime: the largest year that starts no later than `day`, found from `year` upward. */
  function YearOfDay(day: int, year: int): int
    requires DayFromYear(year) <= day
    decreases day - DayFromYear(year)
  {
    YearLength(year);
    if DayFromYear(year + 1) <= day then YearOfDay(day, year + 1) else year
  }

  lemma {:induction false} YearOfDayExact(day: int, start: int, year: int)
    requires DayFromYear(start) <= day && start <= year
    requires DayFromYear(year) <= day < DayFromYear(year + 1)
    ensures YearOfDay(day, start) == year
    decreases year - start
  {
    if start < year {
      YearsAdvance(start + 1, year);
      YearOfDayExact(day, start + 1, year);
    } else {
      YearLength(year);
    }
  }

  /** MonthFromTime, one-based: the last month that starts no later than the day of the year. */
  function MonthOfDay(year: int, dayOfYear: int, month: int): int
    requires 1 <= month <= 12
    decreases 12 - month
  {
    if month < 12 && DaysBeforeMonth(year, month + 1) <= dayOfYear then MonthOfDay(year, dayOfYear, month + 1)
    else month
  }

  lemma {:induction false} MonthOfDayExact(year: int, dayOfYear: int, start: int, month: int)
    requires 1 <= start <= month <= 12
    requires DaysBeforeMonth(year, month) <= dayOfYear < DaysBeforeMonth(year, month) + DaysInMonth(year, month)
    ensures MonthOfDay(year, dayOfYear, start) == month
    decreases month - start
  {
    if start < month {
      if start + 1 < month { MonthsAdvance(year, start + 1, month); }
      MonthOfDayExact(year, dayOfYear, start + 1, month);
    }
  }

  lemma MonthOfDayRange(year: int, dayOfYear: int, start: int)
    requires 1 <= start <= 12
    ensures 1 <= MonthOfDay(year, dayOfYear, start) <= 12
    decreases 12 - start
  {
  }

  function FieldsOfDay(day: int, second: int): Civil
    requires DayFromYear(100) <= day
  {
    var year := YearOfDay(day, 100);
    var dayOfYear := day - DayFromYear(year);
    var month := MonthOfDay(year, dayOfYear, 1);
    MonthOfDayRange(year, dayOfYear, 1);
    Civil(year, month, dayOfYear - DaysBeforeMonth(year, month) + 1,
          second / 3600, second / 60 % 60, second % 60)
  }

  /** The UTC fields that `new Date(ms)` reports for an instant from year 100 on. */
  function FieldsOf(ms: int): Civil
    requires ms >= 86400000 * DayFromYear(100)
  {
    FieldsOfDay(ms / 86400000, ms / 1000 % 86400)
  }

  lemma Split(day: int, second: int)
    requires 0 <= second < 86400
    ensures var ms := (day * 86400 + second) * 1000; ms / 86400000 == day && ms / 1000 % 86400 == second
  {
  }

  lemma ClockFields(c: Civil)
    requires ValidClock(c)
    ensures 0 <= SecondOfDay(c) < 86400
    ensures SecondOfDay(c) / 3600 == c.hour && SecondOfDay(c) / 60 % 60 == c.minute
    ensures SecondOfDay(c) % 60 == c.second
  {
  }

  lemma FieldsOfDayExact(c: Civil)
    requires ValidDate(c) && ValidClock(c) && c.year >= 100
    ensures DayFromYear(100) <= DayNumber(c.year, c.month, c.day)
    ensures FieldsOfDay(DayNumber(c.year, c.month, c.day), SecondOfDay(c)) == c
  {
    var day := DayNumber(c.year, c.month, c.day);
    YearsAdvance(100, c.year);
    DayWithinYear(c);
    YearOfDayExact(day, 100, c.year);
    MonthOfDayExact(c.year, day - DayFromYear(c.year), 1, c.month);
    ClockFields(c);
  }

  lemma FieldsOfCivil(c: Civil)
    requires ValidDate(c) && ValidClock(c) && c.year >= 100
    ensures 1000 * CivilSeconds(c) >= 86400000 * DayFromYear(100)
    ensures FieldsOf(1000 * CivilSeconds(c)) == c
  {
    FieldsOfDayExact(c);
    ClockFields(c);
    Split(DayNumber(c.year, c.month, c.day), SecondOfDay(c));
  }

  lemma {:induction false} YearOfDayAtLeast(day: int, start: int, year: int)
    requires DayFromYear(start) <= day && start <= year && DayFromYear(year) <= day
    ensures YearOfDay(day, start) >= year
    decreases year - start
  {
    YearLength(start);
    if start < year {
      YearsAdvance(start + 1, year);
      YearOfDayAtLeast(day, start + 1, year);
    } else if DayFromYear(start + 1) <= day {
      YearOfDayRises(day, start + 1);
    }
  }

  lemma {:induction false} YearOfDayRises(day: int, start: int)
    requires DayFromYear(start) <= day
    ensures YearOfDay(day, start) >= start
    decreases day - DayFromYear(start)
  {
    YearLength(start);
    if DayFromYear(start + 1) <= day {
      YearOfDayRises(day, start + 1);
    }
  }

  lemma FieldsFromYear(day: int, second: int, year: int)
    requires 0 <= second < 86400 && 100 <= year && DayFromYear(year) <= day
    ensures var ms := (day * 86400 + second) * 1000;
            ms >= 86400000 * DayFromYear(100) && FieldsOf(ms).year >= year
  {
    YearsAdvance(100, year);
    Split(day, second);
    YearOfDayAtLeast(day, 100, year);
  }

  lemma SecondsReadable(d: Civil, year: int)
    requires 1 <= d.month <= 12 && 1 <= d.day && ValidClock(d) && 100 <= year <= d.year
    ensures 1000 * CivilSeconds(d) >= 86400000 * DayFromYear(100)
    ensures FieldsOf(1000 * CivilSeconds(d)).year >= year
  {
    var day := DayNumber(d.year, d.month, d.day);
    ClockFields(d);
    YearsAdvance(year, d.year);
    FieldsFromYear(day, SecondOfDay(d), year);
    assert 1000 * CivilSeconds(d) == (day * 86400 + SecondOfDay(d)) * 1000;
  }

  /** `Date.UTC` of any date checked so far lies in a year that can be read back. */
  lemma DateUtcReadable(c: Civil)
    requires ValidDate(c) && ValidClock(c) && c.year >= 0
    ensures DateUtc(c) >= 86400000 * DayFromYear(100)
    ensures c.year <= 99 ==> FieldsOf(DateUtc(c)).year >= 1900
  {
    SecondsReadable(Shifted(c), if c.year <= 99 then 1900 else 100);
  }

  datatype Instant = Instant(epochSeconds: int, nanoseconds: nat, epochNanoseconds: int)

  /** The checks of `parseUtcTimestamp` after its pattern has matched. */
  function CheckedInstant(c: Civil, nanoseconds: nat): Option<Instant>
    requires c.year >= 0
  {
    if !ValidDate(c) || !ValidClock(c) then None
    else
      var ms := DateUtc(c);
      DateUtcReadable(c);
      if FieldsOf(ms) != c || nanoseconds > 999_999_999 then None
      else Some(Instant(ms / 1000, nanoseconds, ms / 1000 * 1_000_000_000 + nanoseconds))
  }

  /** The round trip through `Date` succeeds exactly from year 100 on. */
  lemma RoundTripExactly(c: Civil)
    requires ValidDate(c) && ValidClock(c) && c.year >= 0
    ensures DateUtc(c) >= 86400000 * DayFromYear(100)
    ensures FieldsOf(DateUtc(c)) == c <==> c.year >= 100
  {
    DateUtcReadable(c);
    if c.year >= 100 {
      FieldsOfCivil(c);
      assert Shifted(c) == c;
    }
  }

  lemma CheckedInstantExactly(c: Civil, nanoseconds: nat)
    requires c.year >= 0 && nanoseconds <= 999_999_999
    ensures CheckedInstant(c, nanoseconds).Some? <==> ValidDate(c) && ValidClock(c) && c.year >= 100
    ensures ValidDate(c) && ValidClock(c) && c.year >= 100 ==>
      CheckedInstant(c, nanoseconds).value.epochNanoseconds == CivilSeconds(c) * 1_000_000_000 + nanoseconds
  {
    if ValidDate(c) && ValidClock(c) {
      RoundTripExactly(c);
      assert c.year >= 100 ==> DateUtc(c) / 1000 == CivilSeconds(c);
    }
  }

  // --- timestamps ----------------------------------------------------------------------------

  const DASH: CodeUnit := 45
  const DOT: CodeUnit := 46
  const COLON: CodeUnit := 58
  const LETTER_T: CodeUnit := 84
  const LETTER_Z: CodeUnit := 90

  /** The shape `YYYY-MM-DDThh:mm:ss`, optionally a dot and one to nine digits, then `Z`. */
  predicate Matches(t: Text) {
    && 20 <= |t| <= 30
    && AllDigits(t[0..4]) && t[4] == DASH && AllDigits(t[5..7]) && t[7] == DASH && AllDigits(t[8..10])
    && t[10] == LETTER_T
    && AllDigits(t[11..13]) && t[13] == COLON && AllDigits(t[14..16]) && t[16] == COLON && AllDigits(t[17..19])
    && t[|t| - 1] == LETTER_Z
    && (|t| == 20 || (|t| >= 22 && t[19] == DOT && AllDigits(t[20..|t| - 1])))
  }

  function CivilOf(t: Text): Civil
    requires Matches(t)
  {
    Civil(DigitsValue(t[0..4]), DigitsValue(t[5..7]), DigitsValue(t[8..10]),
          DigitsValue(t[11..13]), DigitsValue(t[14..16]), DigitsValue(t[17..19]))
  }

  function Fraction(t: Text): (f: Text)
    requires Matches(t)
    ensures AllDigits(f) && |f| <= 9
  {
    if |t| == 20 then [] else t[20..|t| - 1]
  }

  /** `frac.padEnd(9, "0")`. */
  function PadNine(f: Text): (r: Text)
    requires AllDigits(f) && |f| <= 9
    ensures AllDigits(r) && |r| == 9
    decreases 9 - |f|
  {
    if |f| == 9 then f else PadNine(f + [DIGIT_0])
  }

  function Nanoseconds(t: Text): nat
    requires Matches(t)
  {
    DigitsValue(PadNine(Fraction(t)))
  }

  /** `parseUtcTimestamp`; None stands for every throw. */
  function ParseUtc(t: Text): Option<Instant> {
    if Matches(t) then CheckedInstant(CivilOf(t), Nanoseconds(t)) else None
  }

  /** `isUtcIsoTimestamp`. */
  predicate IsUtc(t: Text) { ParseUtc(t).Some? }

  lemma {:induction false} DigitsBound(t: Text)
    requires AllDigits(t)
    ensures DigitsValue(t) < Power10(|t|)
  {
    if t != [] {
      DigitsBound(t[..|t| - 1]);
    }
  }

  function Power10(n: nat): nat { if n == 0 then 1 else 10 * Power10(n - 1) }

  lemma NanosecondsBound(t: Text)
    requires Matches(t)
    ensures Nanoseconds(t) <= 999_999_999
  {
    DigitsBound(PadNine(Fraction(t)));
    assert Power10(3) == 1000;
    assert Power10(6) == 1000 * Power10(3);
    assert Power10(9) == 1000 * Power10(6);
  }

  /**
   Exactly which strings are accepted: the shape, a real calendar date, a clock time below
   24:00:00 without leap second, and a year from 100 on (the `Date.UTC` round trip rejects
   0000 to 0099). The parsed value is then the one the calendar gives.
   */
  lemma AcceptedExactly(t: Text)
    ensures IsUtc(t) <==>
      Matches(t) && ValidDate(CivilOf(t)) && ValidClock(CivilOf(t)) && CivilOf(t).year >= 100
    ensures IsUtc(t) ==>
      ParseUtc(t).value.epochNanoseconds == CivilSeconds(CivilOf(t)) * 1_000_000_000 + Nanoseconds(t)
  {
    if Matches(t) {
      NanosecondsBound(t);
      CheckedInstantExactly(CivilOf(t), Nanoseconds(t));
    }
  }

  // --- order ---------------------------------------------------------------------------------

  /** 1970-01-01T00:00:00Z */
  const EPOCH: Text := [49, 57, 55, 48, 45, 48, 49, 45, 48, 49, 84, 48, 48, 58, 48, 48, 58, 48, 48, 90]

  lemma EpochMatches()
    ensures Matches(EPOCH)
  {
    assert EPOCH[0..4] == [49, 57, 55, 48] && EPOCH[5..7] == [48, 49] == EPOCH[8..10];
    assert EPOCH[11..13] == [48, 48] == EPOCH[14..16] == EPOCH[17..19];
  }

  lemma EpochYear()
    ensures AllDigits(EPOCH[0..4]) && DigitsValue(EPOCH[0..4]) >= 100
  {
    EpochMatches();
    DigitsFront(EPOCH[0..4]);
    assert Power10(3) == 10 * Power10(2) && Power10(2) == 100;
  }

  lemma EpochFields()
    ensures Matches(EPOCH)
    ensures CivilOf(EPOCH) == Civil(DigitsValue(EPOCH[0..4]), 1, 1, 0, 0, 0)
  {
    EpochMatches();
    TwoDigits(48, 48);
    TwoDigits(48, 49);
    assert EPOCH[5..7] == [48, 49] == EPOCH[8..10];
    assert EPOCH[11..13] == [48, 48] == EPOCH[14..16] == EPOCH[17..19];
  }

  lemma EpochAccepted()
    ensures IsUtc(EPOCH)
  {
    EpochYear();
    EpochFields();
    AcceptedExactly(EPOCH);
  }

  lemma EpochDigits()
    ensures AllDigits(EPOCH[0..4]) && DigitsValue(EPOCH[0..4]) == 1970
  {
    var d := EPOCH[0..4];
    var e: Text := [49, 57, 55];
    assert d == [49, 57, 55, 48] && d[..3] == e && e[..2] == [49, 57];
    TwoDigits(49, 57);
    assert DigitsValue(e) == 197;
  }

  lemma FirstYear(year: int)
    requires year == 1970
    ensures DayFromYear(year) == 0
  {
  }

  /** The count of seconds is zero at 1970-01-01T00:00:00Z. */
  lemma EpochSeconds(c: Civil)
    requires c.year == 1970 && c.month == 1 && c.day == 1 && SecondOfDay(c) == 0
    ensures CivilSeconds(c) == 0
  {
    FirstYear(c.year);
    assert DaysBeforeMonth(c.year, c.month) == 0;
  }

  lemma {:induction false} InstantIsZero(t: Text, c: Civil)
    requires IsUtc(t) && Matches(t) && |t| == 20 && CivilOf(t) == c
    requires c.year == 1970 && c.month == 1 && c.day == 1 && SecondOfDay(c) == 0
    ensures ParseUtc(t).value.epochNanoseconds == 0
  {
    EpochSeconds(c);
    NoFraction(t);
    InstantOf(t, c);
  }

  /** The count of nanoseconds starts at the epoch. */
  lemma {:induction false} EpochIsZero()
    ensures IsUtc(EPOCH) && EpochNanoseconds(EPOCH) == 0
  {
    EpochAccepted();
    EpochFields();
    EpochDigits();
    InstantIsZero(EPOCH, CivilOf(EPOCH));
  }

  lemma InstantOf(t: Text, c: Civil)
    requires IsUtc(t) && Matches(t) && CivilOf(t) == c && 1 <= c.month <= 12
    ensures ParseUtc(t).value.epochNanoseconds == CivilSeconds(c) * 1_000_000_000 + Nanoseconds(t)
  {
    AcceptedExactly(t);
  }

  lemma NoFraction(t: Text)
    requires Matches(t) && |t| == 20
    ensures Nanoseconds(t) == 0
  {
    PadZeros([]);
    ZerosValue(PadNine([]));
  }

  lemma {:induction false} PadZeros(f: Text)
    requires AllDigits(f) && |f| <= 9 && forall i :: 0 <= i < |f| ==> f[i] == DIGIT_0
    ensures forall i :: 0 <= i < 9 ==> PadNine(f)[i] == DIGIT_0
    decreases 9 - |f|
  {
    if |f| < 9 { PadZeros(f + [DIGIT_0]); }
  }

  lemma {:induction false} ZerosValue(t: Text)
    requires forall i :: 0 <= i < |t| ==> t[i] == DIGIT_0
    ensures AllDigits(t) && DigitsValue(t) == 0
  {
    if t != [] { ZerosValue(t[..|t| - 1]); }
  }

  lemma TwoDigits(a: CodeUnit, b: CodeUnit)
    requires IsDigit(a) && IsDigit(b)
    ensures DigitsValue([a, b]) == 10 * (a - DIGIT_0) + (b - DIGIT_0)
  {
    assert [a, b][..1] == [a] && [a][..0] == [];
    assert DigitsValue([a]) == a - DIGIT_0;
  }

  /** A string that `parseUtcTimestamp` accepts. */
  type Timestamp = t: Text | IsUtc(t) witness (EpochAccepted(); EPOCH)

  function EpochNanoseconds(t: Timestamp): int { ParseUtc(t).value.epochNanoseconds }

  /** `compareUtc`. */
  function CompareUtc(a: Timestamp, b: Timestamp): int {
    var left, right := EpochNanoseconds(a), EpochNanoseconds(b);
    if left < right then -1 else if left > right then 1 else 0
  }

  predicate BeforeOrEqual(a: Timestamp, b: Timestamp) { CompareUtc(a, b) <= 0 }

  predicate Before(a: Timestamp, b: Timestamp) { CompareUtc(a, b) < 0 }

  /** Lexicographic order of year, month, day, hour, minute, second and nine fraction digits. */
  predicate FieldsLess(a: Timestamp, b: Timestamp) {
    AcceptedExactly(a);
    AcceptedExactly(b);
    CivilLess(CivilOf(a), CivilOf(b))
    || (CivilOf(a) == CivilOf(b) && Less(PadNine(Fraction(a)), PadNine(Fraction(b))))
  }

  /** The string without trailing zeros in its fraction, and without an empty fraction. */
  function WithoutTrailingZeros(t: Text): Text
    requires Matches(t)
  {
    var f := DropZeros(Fraction(t));
    t[..19] + (if f == [] then [] else [DOT] + f) + [LETTER_Z]
  }

  function DropZeros(f: Text): (r: Text)
    ensures |r| <= |f|
    ensures r == [] || r[|r| - 1] != DIGIT_0
  {
    if f != [] && f[|f| - 1] == DIGIT_0 then DropZeros(f[..|f| - 1]) else f
  }

  lemma {:induction false} DropZerosOfPad(f: Text)
    requires AllDigits(f) && |f| <= 9
    ensures DropZeros(PadNine(f)) == DropZeros(f)
    decreases 9 - |f|
  {
    if |f| < 9 {
      DropZerosOfPad(f + [DIGIT_0]);
      assert (f + [DIGIT_0])[..|f|] == f;
    }
  }

  lemma {:induction false} PadOfDropZeros(f: Text)
    requires AllDigits(f) && |f| <= 9
    ensures AllDigits(DropZeros(f)) && PadNine(DropZeros(f)) == PadNine(f)
  {
    if f != [] && f[|f| - 1] == DIGIT_0 {
      var g := f[..|f| - 1];
      PadOfDropZeros(g);
      assert g + [DIGIT_0] == f;
    }
  }

  /** Fractions denote the same number of nanoseconds exactly when they agree up to trailing zeros. */
  lemma SameFraction(f: Text, g: Text)
    requires AllDigits(f) && |f| <= 9 && AllDigits(g) && |g| <= 9
    ensures DigitsValue(PadNine(f)) == DigitsValue(PadNine(g)) <==> DropZeros(f) == DropZeros(g)
  {
    DropZerosOfPad(f);
    DropZerosOfPad(g);
    PadOfDropZeros(f);
    PadOfDropZeros(g);
    if DigitsValue(PadNine(f)) == DigitsValue(PadNine(g)) {
      DigitsValueInjective(PadNine(f), PadNine(g));
    }
  }

  /** The first nineteen characters determine the fields and are determined by them. */
  lemma SameCivil(a: Text, b: Text)
    requires Matches(a) && Matches(b)
    ensures CivilOf(a) == CivilOf(b) <==> a[..19] == b[..19]
  {
    if CivilOf(a) == CivilOf(b) {
      DigitsValueInjective(a[0..4], b[0..4]);
      DigitsValueInjective(a[5..7], b[5..7]);
      DigitsValueInjective(a[8..10], b[8..10]);
      DigitsValueInjective(a[11..13], b[11..13]);
      DigitsValueInjective(a[14..16], b[14..16]);
      DigitsValueInjective(a[17..19], b[17..19]);
      Pieces(a);
      Pieces(b);
    }
    if a[..19] == b[..19] {
      Slices(a, b);
    }
  }

  lemma Pieces(t: Text)
    requires Matches(t)
    ensures t[..19] == t[0..4] + [DASH] + t[5..7] + [DASH] + t[8..10] + [LETTER_T]
                     + t[11..13] + [COLON] + t[14..16] + [COLON] + t[17..19]
  {
  }

  lemma Slices(a: Text, b: Text)
    requires |a| >= 19 && |b| >= 19 && a[..19] == b[..19]
    ensures forall i, j :: 0 <= i <= j <= 19 ==> a[i..j] == b[i..j]
  {
    forall i, j | 0 <= i <= j <= 19 ensures a[i..j] == b[i..j] {
      forall k | i <= k < j ensures a[k] == b[k] {
        assert a[..19][k] == b[..19][k];
      }
    }
  }

  /** Padded digit runs compare as texts exactly as they compare as numbers. */
  lemma {:induction false} DigitsOrder(a: Text, b: Text)
    requires AllDigits(a) && AllDigits(b) && |a| == |b|
    ensures Less(a, b) <==> DigitsValue(a) < DigitsValue(b)
  {
    if a != [] {
      DigitsFront(a);
      DigitsFront(b);
      DigitsOrder(a[1..], b[1..]);
      DigitsBound(a[1..]);
      DigitsBound(b[1..]);
      LeadingDigit(a[0] - DIGIT_0, b[0] - DIGIT_0, DigitsValue(a[1..]), DigitsValue(b[1..]), Power10(|a| - 1));
    }
  }

  lemma LeadingDigit(x: nat, y: nat, u: nat, v: nat, p: nat)
    requires u < p && v < p
    ensures x * p + u < y * p + v <==> x < y || (x == y && u < v)
  {
    if x < y { assert (x + 1) * p <= y * p; }
    if y < x { assert (y + 1) * p <= x * p; }
  }

  lemma {:induction false} DigitsFront(t: Text)
    requires AllDigits(t) && t != []
    ensures DigitsValue(t) == (t[0] - DIGIT_0) * Power10(|t| - 1) + DigitsValue(t[1..])
  {
    if |t| == 1 {
      assert t[..0] == [] && t[1..] == [];
    } else {
      var init := t[..|t| - 1];
      DigitsFront(init);
      assert t[1..][..|t| - 2] == init[1..];
      assert Power10(|t| - 1) == 10 * Power10(|t| - 2);
    }
  }

  lemma NanosecondOrder(s: int, m: nat, t: int, n: nat)
    requires m <= 999_999_999 && n <= 999_999_999
    ensures s * 1_000_000_000 + m < t * 1_000_000_000 + n <==> s < t || (s == t && m < n)
    ensures s * 1_000_000_000 + m == t * 1_000_000_000 + n <==> s == t && m == n
  {
  }

  /** The instants of two accepted strings, as seconds and nanoseconds of their fields. */
  lemma InstantOrder(a: Timestamp, b: Timestamp)
    ensures Matches(a) && Matches(b) && ValidDate(CivilOf(a)) && ValidDate(CivilOf(b))
    ensures EpochNanoseconds(a) < EpochNanoseconds(b)
      <==> (CivilLess(CivilOf(a), CivilOf(b)) || (CivilOf(a) == CivilOf(b) && Nanoseconds(a) < Nanoseconds(b)))
    ensures EpochNanoseconds(a) == EpochNanoseconds(b)
       <==> CivilOf(a) == CivilOf(b) && Nanoseconds(a) == Nanoseconds(b)
  {
    AcceptedExactly(a);
    AcceptedExactly(b);
    NanosecondsBound(a);
    NanosecondsBound(b);
    SecondsIsomorphism(CivilOf(a), CivilOf(b));
    NanosecondOrder(CivilSeconds(CivilOf(a)), Nanoseconds(a), CivilSeconds(CivilOf(b)), Nanoseconds(b));
  }

  /**
   Epoch nanoseconds are an order isomorphism: comparing accepted strings compares their
   fields lexicographically.
   */
  lemma CompareIsFieldOrder(a: Timestamp, b: Timestamp)
    ensures CompareUtc(a, b) < 0 <==> FieldsLess(a, b)
    ensures CompareUtc(a, b) > 0 <==> FieldsLess(b, a)
  {
    InstantOrder(a, b);
    InstantOrder(b, a);
    DigitsOrder(PadNine(Fraction(a)), PadNine(Fraction(b)));
    DigitsOrder(PadNine(Fraction(b)), PadNine(Fraction(a)));
  }

  /** Two accepted strings denote one instant exactly when they differ only in trailing zeros. */
  lemma EqualUpToTrailingZeros(a: Timestamp, b: Timestamp)
    ensures Matches(a) && Matches(b)
    ensures CompareUtc(a, b) == 0 <==> WithoutTrailingZeros(a) == WithoutTrailingZeros(b)
  {
    InstantOrder(a, b);
    SameCivil(a, b);
    SameFraction(Fraction(a), Fraction(b));
    SameStripped(a, b);
  }

  lemma SameStripped(a: Text, b: Text)
    requires Matches(a) && Matches(b)
    ensures WithoutTrailingZeros(a) == WithoutTrailingZeros(b)
       <==> a[..19] == b[..19] && DropZeros(Fraction(a)) == DropZeros(Fraction(b))
  {
    var f, g := DropZeros(Fraction(a)), DropZeros(Fraction(b));
    var x, y := WithoutTrailingZeros(a), WithoutTrailingZeros(b);
    if x == y {
      assert x[..19] == a[..19] && y[..19] == b[..19];
      assert |f| == |g|;
      if f != [] {
        assert x[20..|x| - 1] == f && y[20..|y| - 1] == g;
      }
    }
  }
}
