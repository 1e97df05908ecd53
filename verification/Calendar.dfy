/** The calendar arithmetic of common/tool/datetime.h and the division of common/tool/math.h. */
module Calendar {
  import opened Arith
  import opened Chunks

  const U64 := 0x1_0000_0000_0000_0000

  /** datetime_t; months count from 0, days from 1. */
  datatype Date = Date(year: nat, month: nat, day: nat, hour: nat, minute: nat, second: nat)

  // ------------------------------------------------------------------ 64-by-32 division

  /** div_u64_rem: the upper half is divided first, so that the quotient of the divl instruction
      fits into 32 bits. */
  method DivU64Rem(dividend: nat, divisor: nat) returns (q: nat, r: nat)
    requires dividend < U64 && 0 < divisor < TWO32
    ensures q == dividend / divisor && r == dividend % divisor && q < U64
  {
    var lower := dividend % TWO32;
    var high, upper := DivUpper(dividend / TWO32, divisor);
    var low;
    low, r := Divl(upper, lower, divisor);
    q := high * TWO32 + low;
    DivisionExact(dividend, divisor, high, upper, lower, low, r);
  }

  /** The division of the upper half, done only if it is not smaller than the divisor. */
  method DivUpper(n: nat, d: nat) returns (high: nat, upper: nat)
    requires n < TWO32 && 0 < d
    ensures n == high * d + upper && upper < d && high < TWO32
  {
    high, upper := 0, n;
    if upper >= d {
      high := upper / d;
      upper := upper % d;
      MulGrows(high, d);
    }
  }

  /** The divl instruction, which faults if its quotient does not fit. */
  method Divl(upper: nat, lower: nat, d: nat) returns (q: nat, r: nat)
    requires upper < d && lower < TWO32
    ensures upper * TWO32 + lower == q * d + r && r < d && q < TWO32
  {
    var n := upper * TWO32 + lower;
    q, r := n / d, n % d;
    assert n == q * d + r;
    assert n < d * TWO32;
    MulCancel(q, TWO32, d);
  }

  lemma {:induction false} DivisionExact(n: nat, d: nat, high: nat, upper: nat, lower: nat, low: nat, r: nat)
    requires 0 < d && n == (high * d + upper) * TWO32 + lower && upper * TWO32 + lower == low * d + r && r < d
    ensures n / d == high * TWO32 + low && n % d == r
  {
    var q := high * TWO32 + low;
    assert n == q * d + r by {
      assert (high * d + upper) * TWO32 == (high * TWO32) * d + upper * TWO32;
      assert q * d == (high * TWO32) * d + low * d;
    }
    QuotientUnique(n, d, q, r);
  }

  // ------------------------------------------------------------------ the two calendars

  /** A year is a leap year if 4 divides it; `gregorian` makes the exceptions for centuries. */
  predicate Leap(year: nat, gregorian: bool) {
    year % 4 == 0 && (gregorian ==> year % 100 != 0 || year % 400 == 0)
  }

  function MonthDays(month: nat, leap: bool): (r: nat)
    requires month < 12
    ensures 28 <= r <= 31
  {
    if month == 1 then (if leap then 29 else 28)
    else if month == 3 || month == 5 || month == 8 || month == 10 then 30 else 31
  }

  /** The days of a year before a month. */
  function DaysBefore(month: nat, leap: bool): (r: nat)
    requires month <= 12
  {
    if month == 0 then 0 else DaysBefore(month - 1, leap) + MonthDays(month - 1, leap)
  }

  predicate IsDate(d: Date, gregorian: bool) {
    && 1970 <= d.year && d.month < 12 && 1 <= d.day <= MonthDays(d.month, Leap(d.year, gregorian))
    && d.hour < 24 && d.minute < 60 && d.second < 60
  }

  /** The days from 1970-01-01 to the first day of a year. */
  function YearStart(year: nat, gregorian: bool): (r: nat)
    requires 1970 <= year
    ensures r >= 365 * (year - 1970)
  {
    if year == 1970 then 0 else YearStart(year - 1, gregorian) + (if Leap(year - 1, gregorian) then 366 else 365)
  }

  function Seconds(d: Date, gregorian: bool): (r: nat)
    requires IsDate(d, gregorian)
  {
    (YearStart(d.year, gregorian) + DaysBefore(d.month, Leap(d.year, gregorian)) + (d.day - 1)) * 86400 +
    d.hour * 3600 + d.minute * 60 + d.second
  }

  /** Leap years in closed form. */
  lemma {:induction false} YearStartIs(year: nat, gregorian: bool)
    requires 1970 <= year
    ensures YearStart(year, gregorian) == 365 * (year - 1970) +
              (if gregorian then (year - 1) / 4 - (year - 1) / 100 + (year - 1) / 400 - 477 else (year - 1) / 4 - 492)
  {
    hide Leap;
    if year > 1970 {
      YearStartIs(year - 1, gregorian);
      LeapStep(year - 1);
      LeapFour(year - 1);
    }
  }

  lemma {:induction false} LeapFour(y: nat)
    requires 0 < y
    ensures y / 4 == (y - 1) / 4 + (if Leap(y, false) then 1 else 0)
  {
  }

  lemma {:induction false} Hundred(y: nat)
    requires 0 < y
    ensures y / 100 == (y - 1) / 100 + (if y % 100 == 0 then 1 else 0)
  {
  }

  lemma {:induction false} FourHundred(y: nat)
    requires 0 < y
    ensures y / 400 == (y - 1) / 400 + (if y % 400 == 0 then 1 else 0)
  {
  }

  lemma {:induction false} Multiples(y: nat)
    ensures (y % 400 == 0 ==> y % 100 == 0) && (y % 100 == 0 ==> y % 4 == 0)
  {
    if y % 100 == 0 {
      assert y == 4 * (25 * (y / 100));
    }
    if y % 400 == 0 {
      assert y == 100 * (4 * (y / 400));
    }
  }

  /** From the year before to this one the leap days grow by one exactly in a leap year. */
  lemma {:induction false} LeapStep(y: nat)
    requires 0 < y
    ensures y / 4 - y / 100 + y / 400 == (y - 1) / 4 - (y - 1) / 100 + (y - 1) / 400 + (if Leap(y, true) then 1 else 0)
  {
    LeapFour(y);
    Hundred(y);
    FourHundred(y);
    Multiples(y);
  }

  lemma {:induction false} DaysBeforeIs(month: nat, leap: bool)
    requires month <= 12
    ensures DaysBefore(month, leap) ==
      (if month == 0 then 0 else if month == 1 then 31 else if month == 2 then 59 else if month == 3 then 90
       else if month == 4 then 120 else if month == 5 then 151 else if month == 6 then 181 else if month == 7 then 212
       else if month == 8 then 243 else if month == 9 then 273 else if month == 10 then 304
       else if month == 11 then 334 else 365)
      + (if leap && month >= 2 then 1 else 0)
  {
    if month > 0 {
      DaysBeforeIs(month - 1, leap);
    }
  }

  // ------------------------------------------------------------------ mktime64

  /** mktime64: all arguments are unsigned int, and so is its arithmetic up to the cast. */
  function MkTime64(year0: nat, mon0: nat, day: nat, hour: nat, min: nat, sec: nat): (r: int) {
    var shifted := (mon0 + TWO32 - 2) % TWO32;
    var back := shifted == 0 || shifted >= TWO32 / 2;
    var mon := if back then (shifted + 12) % TWO32 else shifted;
    var year := if back then (year0 + TWO32 - 1) % TWO32 else year0;
    var days := (year / 4 - year / 100 + year / 400 + (367 * mon % TWO32) / 12 + day) % TWO32;
    (((days + year * 365 % TWO32 - 719499) * 24 + hour) * 60 + min) * 60 + sec
  }

  /** The year that begins in March. */
  function MarchYear(d: Date): (r: nat)
    requires d.year > 0
  {
    if d.month < 2 then d.year - 1 else d.year
  }

  function DayNumber(d: Date): (r: int)
    requires 1970 <= d.year && d.month < 12
  {
    var y := MarchYear(d);
    var mon := if d.month < 2 then d.month + 11 else d.month - 1;
    y / 4 - y / 100 + y / 400 + 367 * mon / 12 + d.day + y * 365 - 719499
  }

  lemma {:induction false} Fits(x: nat)
    ensures x < TWO32 ==> x % TWO32 == x
    ensures TWO32 <= x < 2 * TWO32 ==> x % TWO32 == x - TWO32
  {
  }

  lemma {:induction false} LeapDaysBound(y: nat)
    ensures 0 <= y / 4 - y / 100 + y / 400 <= y / 4
  {
    assert y / 100 <= y / 4 && y / 400 <= y / 100;
  }

  /** How often the product of the year by 365 wraps around. */
  function Wraps(y: nat): (r: nat)
    ensures r == 0 <==> y * 365 < TWO32
  {
    y * 365 / TWO32
  }

  /** For every year that fits 32 bits only that product can wrap around. */
  lemma {:induction false} OnlyTheYear(d: Date)
    requires 1970 <= d.year < TWO32 && d.month < 12 && 1 <= d.day <= 31
    ensures MkTime64(d.year, d.month + 1, d.day, d.hour, d.minute, d.second) ==
            (((DayNumber(d) - TWO32 * Wraps(MarchYear(d))) * 24 + d.hour) * 60 + d.minute) * 60 + d.second
  {
    var y := MarchYear(d);
    var mon := if d.month < 2 then d.month + 11 else d.month - 1;
    Fits(d.month + 1 + TWO32 - 2);
    Fits((if d.month == 0 then TWO32 - 1 else 0) + 12);
    Fits(d.year + TWO32 - 1);
    LeapDaysBound(y);
    Fits(367 * mon);
    Fits(y / 4 - y / 100 + y / 400 + 367 * mon / 12 + d.day);
    assert y * 365 % TWO32 == y * 365 - TWO32 * Wraps(y);
  }

  lemma {:induction false} DayNumberIs(d: Date, leap: bool)
    requires 1970 <= d.year && d.month < 12 && leap == Leap(d.year, true)
    ensures DayNumber(d) == YearStart(d.year, true) + DaysBefore(d.month, leap) + d.day - 1
  {
    hide YearStart, DaysBefore, Leap;
    YearStartIs(d.year, true);
    DaysBeforeIs(d.month, leap);
    LeapStep(d.year);
  }

  /** mktime64 is right for a Gregorian date if and only if the days of its years fit 32 bits. */
  lemma {:induction false} MkTimeGregorianIff(d: Date)
    requires IsDate(d, true) && d.year < TWO32
    ensures MkTime64(d.year, d.month + 1, d.day, d.hour, d.minute, d.second) == Seconds(d, true) <==>
              MarchYear(d) * 365 < TWO32
  {
    hide MkTime64, DayNumber, YearStart, DaysBefore, Wraps;
    OnlyTheYear(d);
    DayNumberIs(d, Leap(d.year, true));
  }

  // ------------------------------------------------------------------ mkdatetime

  /** 2^55 seconds, more than a thousand million years: up to there the year fits an int. */
  const LAST := 0x80_0000_0000_0000

  const DAYS := [31, 28, 31, 30, 31, 30, 31, 31, 30, 31, 30, 31]

  lemma {:induction false} TableIs(month: nat)
    requires month < 12
    ensures DAYS[month] == MonthDays(month, false)
  {
  }

  /** mkdatetime finds the date of a time in the calendar in which every fourth year is a leap
      year. */
  method MkDateTime(t: nat) returns (d: Date)
    requires t < LAST
    ensures IsDate(d, false) && Seconds(d, false) == t
  {
    hide YearStart, DaysBefore, MonthDays, Leap;
    var minutes, second := DivU64Rem(t, 60);
    var hours, minute := DivU64Rem(minutes, 60);
    var year, rest := FindYear(hours);
    var days, hour := DivU64Rem(rest, 24);
    var month, day := FindDay(year, days);
    d := Date(year, month, day, hour, minute, second);
  }

  /** The years: four at a time, then one at a time. */
  method FindYear(hours: nat) returns (year: nat, rest: nat)
    requires hours < U64
    ensures 1970 <= year && hours == YearStart(year, false) * 24 + rest
    ensures rest < (if Leap(year, false) then 366 else 365) * 24
  {
    hide YearStart;
    var year4, r := DivU64Rem(hours, 1461 * 24);
    year, rest := 1970 + year4 * 4, r;
    YearStartIs(year, false);
    while rest >= (if year % 4 == 0 then 366 else 365) * 24
      invariant 1970 <= year && hours == YearStart(year, false) * 24 + rest
      decreases rest
    {
      NextYear(year);
      rest := rest - (if year % 4 == 0 then 366 else 365) * 24;
      year := year + 1;
    }
  }

  lemma {:induction false} NextYear(year: nat)
    requires 1970 <= year
    ensures YearStart(year + 1, false) == YearStart(year, false) + (if year % 4 == 0 then 366 else 365)
  {
  }

  /** The day of a year: 29 February apart, the table of an ordinary year serves. */
  method FindDay(year: nat, days: nat) returns (month: nat, day: nat)
    requires days < (if Leap(year, false) then 366 else 365)
    ensures month < 12 && 1 <= day <= MonthDays(month, Leap(year, false))
    ensures days == DaysBefore(month, Leap(year, false)) + day - 1
  {
    hide DaysBefore;
    var left := days + 1;
    DaysBeforeIs(1, true);
    if year % 4 == 0 {
      if left > 60 {
        left := left - 1;
      } else if left == 60 {
        return 1, 29;
      }
    }
    ghost var total := left;
    month := 0;
    DaysBeforeIs(0, false);
    DaysBeforeIs(12, false);
    while DAYS[month] < left
      invariant month < 12 && 0 < left && left + DaysBefore(month, false) == total <= 365
      decreases left
    {
      TableIs(month);
      DaysBeforeIs(month, false);
      DaysBeforeIs(month + 1, false);
      left := left - DAYS[month];
      month := month + 1;
    }
    TableIs(month);
    day := left;
    DaysBeforeIs(month, false);
    DaysBeforeIs(month, true);
  }

  // ------------------------------------------------------------------ the round trip

  /** The start of 2100-03-01 as mkdatetime counts, and as the calendar does. */
  const MARCH_2100 := 4107628800
  const TRUE_MARCH_2100 := 4107542400

  /** What mktime64 makes of a date of mkdatetime: the centuries without a leap day are counted
      by one function and not by the other. */
  lemma {:induction false} RoundTripIs(d: Date)
    requires IsDate(d, false) && d.year < TWO32
    ensures var y := MarchYear(d);
            MkTime64(d.year, d.month + 1, d.day, d.hour, d.minute, d.second) ==
            Seconds(d, false) - 86400 * (y / 100 - y / 400 - 15 + TWO32 * Wraps(y))
  {
    hide MkTime64, YearStart, DaysBefore, DayNumber, Leap, Wraps;
    OnlyTheYear(d);
    DayNumberFour(d, Leap(d.year, false));
  }

  lemma {:induction false} DayNumberFour(d: Date, leap: bool)
    requires 1970 <= d.year && d.month < 12 && leap == Leap(d.year, false)
    ensures var y := MarchYear(d);
            DayNumber(d) == YearStart(d.year, false) + DaysBefore(d.month, leap) + d.day - 1 - (y / 100 - y / 400 - 15)
  {
    hide YearStart, DaysBefore, Leap;
    YearStartIs(d.year, false);
    DaysBeforeIs(d.month, leap);
    LeapFour(d.year);
  }

  /** Dates are ordered as their seconds are. */
  lemma {:induction false} YearsApart(a: nat, b: nat, gregorian: bool)
    requires 1970 <= a <= b
    ensures YearStart(a, gregorian) + 365 * (b - a) <= YearStart(b, gregorian)
    ensures a < b ==> YearStart(a, gregorian) + (if Leap(a, gregorian) then 366 else 365) <= YearStart(b, gregorian)
    decreases b
  {
    if a < b {
      YearsApart(a, b - 1, gregorian);
    }
  }

  /** Below 2^55 seconds the year fits 32 bits. */
  lemma {:induction false} YearBound(d: Date)
    requires IsDate(d, false) && Seconds(d, false) < LAST
    ensures d.year < TWO32 / 2
  {
    hide YearStart, DaysBefore;
    assert YearStart(d.year, false) >= 365 * (d.year - 1970);
  }

  lemma {:induction false} March2100(d: Date)
    requires IsDate(d, false)
    ensures Seconds(d, false) < MARCH_2100 <==> MarchYear(d) < 2100
  {
    hide YearStart, DaysBefore;
    YearStartIs(d.year, false);
    DaysBeforeIs(d.month, Leap(d.year, false));
    YearStartIs(2100, false);
  }

  lemma {:induction false} Centuries(y: nat)
    requires 1969 <= y
    ensures y / 100 - y / 400 >= 15 && (y / 100 - y / 400 == 15 <==> y < 2100)
  {
  }

  /** The round trip: for the date `d` that mkdatetime finds for `t`, mktime64 returns `t` if and
      only if `t` is before 2100-03-01 as mkdatetime counts. */
  lemma {:induction false} RoundTripIff(t: nat, d: Date)
    requires t < LAST && IsDate(d, false) && Seconds(d, false) == t
    ensures MkTime64(d.year, d.month + 1, d.day, d.hour, d.minute, d.second) == t <==> t < MARCH_2100
  {
    hide MkTime64, Seconds, IsDate, Wraps;
    YearBound(d);
    RoundTripIs(d);
    March2100(d);
    DateYear(d);
    Centuries(MarchYear(d));
  }

  /** The first time that does not come back: mkdatetime answers 2100-03-01 one day late, and
      mktime64 knows better. */
  lemma {:induction false} RoundTripFails()
    ensures var d := Date(2100, 2, 1, 0, 0, 0);
            IsDate(d, false) && Seconds(d, false) == MARCH_2100 && MkTime64(2100, 3, 1, 0, 0, 0) == TRUE_MARCH_2100
  {
    hide YearStart, DaysBefore, MkTime64;
    YearStartIs(2100, false);
    DaysBeforeIs(2, true);
    RoundTripIs(Date(2100, 2, 1, 0, 0, 0));
  }

  lemma {:induction false} DateYear(d: Date)
    requires IsDate(d, false)
    ensures 1970 <= d.year
  {
  }

  /** mkdatetime is right, that is, it finds the Gregorian date of `t`, if and only if `t` is
      before 2100-03-01: on the day after 2100-02-28 it answers 2100-02-29. */
  lemma {:induction false} GregorianIff(t: nat, d: Date)
    requires IsDate(d, false) && Seconds(d, false) == t
    ensures (IsDate(d, true) && Seconds(d, true) == t) <==> t < TRUE_MARCH_2100
  {
    hide YearStart, DaysBefore;
    YearStartIs(d.year, false);
    YearStartIs(d.year, true);
    YearStartIs(2100, false);
    DaysBeforeIs(d.month, Leap(d.year, false));
    DaysBeforeIs(d.month, Leap(d.year, true));
    CenturiesBefore(d.year);
  }

  lemma {:induction false} CenturiesBefore(y: nat)
    requires 1970 <= y
    ensures (y - 1) / 100 - (y - 1) / 400 == 15 <==> y <= 2100
    ensures (y - 1) / 100 - (y - 1) / 400 >= 15
    ensures y < 2100 ==> Leap(y, false) == Leap(y, true)
  {
  }

  /** A time has one date. */
  lemma {:induction false} DateUnique(d: Date, e: Date)
    requires IsDate(d, false) && IsDate(e, false) && Seconds(d, false) == Seconds(e, false)
    ensures d == e
  {
    hide YearStart, DaysBefore, Leap, MonthDays;
    SameDay(d, e);
    hide Seconds;
    DayInYear(d);
    DayInYear(e);
    if d.year < e.year {
      YearsApart(d.year, e.year, false);
    } else if e.year < d.year {
      YearsApart(e.year, d.year, false);
    } else {
      SameMonth(d.month, d.day, e.month, e.day, Leap(d.year, false));
    }
  }

  function DayOf(d: Date): (r: int)
    requires IsDate(d, false)
  {
    YearStart(d.year, false) + DaysBefore(d.month, Leap(d.year, false)) + d.day - 1
  }

  lemma {:induction false} SameDay(d: Date, e: Date)
    requires IsDate(d, false) && IsDate(e, false) && Seconds(d, false) == Seconds(e, false)
    ensures DayOf(d) == DayOf(e) && d.hour == e.hour && d.minute == e.minute && d.second == e.second
  {
    hide YearStart, DaysBefore, Leap, MonthDays;
  }

  lemma {:induction false} SameMonth(m: nat, a: nat, n: nat, b: nat, leap: bool)
    requires m < 12 && n < 12 && 1 <= a <= MonthDays(m, leap) && 1 <= b <= MonthDays(n, leap)
    requires DaysBefore(m, leap) + a == DaysBefore(n, leap) + b
    ensures m == n && a == b
  {
    hide DaysBefore;
    DaysBeforeIs(m, leap);
    DaysBeforeIs(n, leap);
  }

  lemma {:induction false} DayInYear(d: Date)
    requires IsDate(d, false)
    ensures DaysBefore(d.month, Leap(d.year, false)) + d.day <= (if Leap(d.year, false) then 366 else 365)
  {
    hide DaysBefore;
    DaysBeforeIs(d.month, Leap(d.year, false));
  }
}
