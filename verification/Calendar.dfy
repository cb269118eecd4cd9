/** libc_time.c: seconds since 1970 to broken-down time. */
module Calendar {
  // ------------------------------------------------------------ the Gregorian calendar

  predicate IsLeap(y: int) { y % 4 == 0 && (y % 100 != 0 || y % 400 == 0) }

  function LeapDay(y: int): int { if IsLeap(y) then 1 else 0 }

  /** The days from 1 January of year 1 to 1 January of year y. */
  function DaysBeforeYear(y: int): int { 365 * (y - 1) + (y - 1) / 4 - (y - 1) / 100 + (y - 1) / 400 }

  /** It counts 366 days for leap years and 365 for others. */
  lemma YearStep(y: int)
    ensures DaysBeforeYear(y + 1) == DaysBeforeYear(y) + 365 + LeapDay(y)
  {
    assert y / 4 == (y - 1) / 4 + if y % 4 == 0 then 1 else 0;
    assert y / 100 == (y - 1) / 100 + if y % 100 == 0 then 1 else 0;
    assert y / 400 == (y - 1) / 400 + if y % 400 == 0 then 1 else 0;
    assert y % 100 == 0 ==> y % 4 == 0 by { Multiple(y, 100, 25, 4); }
    assert y % 400 == 0 ==> y % 100 == 0 by { Multiple(y, 400, 4, 100); }
  }

  lemma Multiple(y: int, n: int, a: int, b: int)
    requires (n == 100 && a == 25 && b == 4) || (n == 400 && a == 4 && b == 100)
    ensures y % n == 0 ==> y % b == 0
  {
    if y % n == 0 {
      if n == 100 { Div4(y, 25 * (y / 100), 0); } else { Div100(y, 4 * (y / 400), 0); }
    }
  }

  /** Months are counted from 0. */
  function MonthLength(y: int, m: int): (n: int)
    ensures 28 <= n <= 31
  {
    if m == 1 then 28 + LeapDay(y)
    else if m == 3 || m == 5 || m == 8 || m == 10 then 30
    else 31
  }

  function DaysBeforeMonth(y: int, m: nat): int {
    if m == 0 then 0 else DaysBeforeMonth(y, m - 1) + MonthLength(y, m - 1)
  }

  /** struct tm; the year counts from 1900. */
  datatype Time = Time(year: int, mon: int, mday: int, hour: int, min: int, sec: int, wday: int, yday: int)

  /** A date and a time of day that exist. */
  predicate Exists(tm: Time) {
    && 0 <= tm.mon < 12 && 1 <= tm.mday <= MonthLength(1900 + tm.year, tm.mon)
    && 0 <= tm.hour < 24 && 0 <= tm.min < 60 && 0 <= tm.sec < 60
  }

  function DayOfYear(tm: Time): int
    requires tm.mon >= 0
  {
    DaysBeforeMonth(1900 + tm.year, tm.mon) + tm.mday - 1
  }

  /** Days since 1 January 1970, by the Gregorian count. */
  function DayNumber(tm: Time): int
    requires tm.mon >= 0
  {
    DaysBeforeYear(1900 + tm.year) + DayOfYear(tm) - DaysBeforeYear(1970)
  }

  /** Seconds since 1970. */
  function Seconds(tm: Time): int
    requires tm.mon >= 0
  {
    DayNumber(tm) * 86400 + tm.hour * 3600 + tm.min * 60 + tm.sec
  }

  lemma Months(y: int)
    ensures DaysBeforeMonth(y, 1) == 31 && DaysBeforeMonth(y, 2) == 59 + LeapDay(y)
    ensures DaysBeforeMonth(y, 3) == 90 + LeapDay(y) && DaysBeforeMonth(y, 4) == 120 + LeapDay(y)
    ensures DaysBeforeMonth(y, 5) == 151 + LeapDay(y) && DaysBeforeMonth(y, 6) == 181 + LeapDay(y)
    ensures DaysBeforeMonth(y, 7) == 212 + LeapDay(y) && DaysBeforeMonth(y, 8) == 243 + LeapDay(y)
    ensures DaysBeforeMonth(y, 9) == 273 + LeapDay(y) && DaysBeforeMonth(y, 10) == 304 + LeapDay(y)
    ensures DaysBeforeMonth(y, 11) == 334 + LeapDay(y) && DaysBeforeMonth(y, 12) == 365 + LeapDay(y)
  {
    hide IsLeap;
    assert DaysBeforeMonth(y, 3) == DaysBeforeMonth(y, 2) + 31;
    assert DaysBeforeMonth(y, 6) == DaysBeforeMonth(y, 5) + 30;
    assert DaysBeforeMonth(y, 9) == DaysBeforeMonth(y, 8) + 30;
  }

  lemma DayOfYearFits(tm: Time)
    requires Exists(tm)
    ensures 0 <= DayOfYear(tm) < 365 + LeapDay(1900 + tm.year)
  {
    hide IsLeap;
    Months(1900 + tm.year);
  }

  lemma {:induction false} YearsApart(a: int, b: int)
    requires a < b
    ensures DaysBeforeYear(b) >= DaysBeforeYear(a) + 365 + LeapDay(a)
    decreases b - a
  {
    hide DaysBeforeYear, IsLeap;
    YearStep(a);
    if a + 1 < b { YearsApart(a + 1, b); }
  }

  lemma {:induction false} MonthsApart(y: int, a: nat, b: nat)
    requires a < b
    ensures DaysBeforeMonth(y, b) >= DaysBeforeMonth(y, a) + MonthLength(y, a)
    decreases b
  {
    if a + 1 < b { MonthsApart(y, a, b - 1); }
  }

  /** Different dates have different day numbers. */
  lemma DayDecidesDate(a: Time, b: Time)
    requires Exists(a) && Exists(b) && DayNumber(a) == DayNumber(b)
    ensures a.year == b.year && a.mon == b.mon && a.mday == b.mday
  {
    hide DaysBeforeYear, MonthLength, IsLeap;
    DayOfYearFits(a);
    DayOfYearFits(b);
    if a.year < b.year { YearsApart(1900 + a.year, 1900 + b.year); }
    if b.year < a.year { YearsApart(1900 + b.year, 1900 + a.year); }
    if a.mon < b.mon { MonthsApart(1900 + a.year, a.mon, b.mon); }
    if b.mon < a.mon { MonthsApart(1900 + a.year, b.mon, a.mon); }
  }

  /** Every second has one date and time of day. */
  lemma SecondsDecide(a: Time, b: Time)
    requires Exists(a) && Exists(b) && Seconds(a) == Seconds(b)
    ensures a.(wday := 0, yday := 0) == b.(wday := 0, yday := 0)
  {
    hide DayNumber, MonthLength;
    var x, y := a.hour * 3600 + a.min * 60 + a.sec, b.hour * 3600 + b.min * 60 + b.sec;
    assert 0 <= x < 86400 && 0 <= y < 86400;
    assert DayNumber(a) == DayNumber(b);
    DayDecidesDate(a, b);
  }

  // ------------------------------------------------------------ the cycles of the C code

  const INT_MIN: int := -0x8000_0000
  const INT_MAX: int := 0x7FFF_FFFF
  const LEAPOCH := 946684800 + 86400 * (31 + 29)
  const DAYS_PER_400Y := 365 * 400 + 97
  const DAYS_PER_100Y := 365 * 100 + 24
  const DAYS_PER_4Y := 365 * 4 + 1

  /** days_in_month, which starts with March */
  const DAYS_IN_MONTH: seq<int> := [31, 30, 31, 30, 31, 31, 30, 31, 30, 31, 31, 29]

  /** Division and remainder of C, which round towards zero. */
  function Quot(a: int, b: int): int
    requires b > 0
  {
    if a >= 0 then a / b else -(-a / b)
  }

  function Rem(a: int, b: int): int
    requires b > 0
  {
    a - Quot(a, b) * b
  }

  /** With the correction for negative remainders they round down. */
  lemma Floor(a: int, b: int)
    requires b > 0
    ensures var (q, r) := if Rem(a, b) < 0 then (Quot(a, b) - 1, Rem(a, b) + b) else (Quot(a, b), Rem(a, b));
            a == q * b + r && 0 <= r < b
  {
  }

  /** A day after 29 February 2000, as the numbers of cycles that the C code finds. */
  datatype Cycles = Cycles(qc: int, c: int, q: int, y: int, rem: int)

  /** The year that starts with the last 1 March, counted from 2000. */
  function Years(k: Cycles): int { k.y + 4 * k.q + 100 * k.c + 400 * k.qc }

  predicate InCycles(k: Cycles) {
    && 0 <= k.c < 4 && 0 <= k.q < 25 && 0 <= k.y < 4
    && 0 <= k.rem < 365 + LeapDay(2000 + Years(k) + 1)
  }

  function DaysOf(k: Cycles): int { DAYS_PER_400Y * k.qc + DAYS_PER_100Y * k.c + DAYS_PER_4Y * k.q + 365 * k.y + k.rem }

  lemma Div4(n: int, q: int, r: int)
    requires n == 4 * q + r && 0 <= r < 4
    ensures n / 4 == q && n % 4 == r
  {
  }

  lemma Div100(n: int, q: int, r: int)
    requires n == 100 * q + r && 0 <= r < 100
    ensures n / 100 == q && n % 100 == r
  {
  }

  lemma Div400(n: int, q: int, r: int)
    requires n == 400 * q + r && 0 <= r < 400
    ensures n / 400 == q && n % 400 == r
  {
  }

  /** Which years are leap years, in terms of the cycles. */
  lemma LeapInCycles(k: Cycles)
    requires 0 <= k.c < 4 && 0 <= k.q < 25 && 0 <= k.y < 4
    ensures IsLeap(2000 + Years(k)) <==> k.y == 0 && (k.q != 0 || k.c == 0)
    ensures IsLeap(2000 + Years(k) + 1) <==> k.y == 3 && (k.q != 24 || k.c == 3)
  {
    var n := 2000 + Years(k);
    Div4(n, 500 + k.q + 25 * k.c + 100 * k.qc, k.y);
    Div100(n, 20 + k.c + 4 * k.qc, 4 * k.q + k.y);
    Div400(n, 5 + k.qc, 100 * k.c + 4 * k.q + k.y);
    if k.y == 3 {
      Div4(n + 1, 500 + k.q + 1 + 25 * k.c + 100 * k.qc, 0);
      if k.q == 24 {
        Div100(n + 1, 20 + k.c + 1 + 4 * k.qc, 0);
        if k.c == 3 { Div400(n + 1, 5 + k.qc + 1, 0); } else { Div400(n + 1, 5 + k.qc, 100 * k.c + 100); }
      } else {
        Div100(n + 1, 20 + k.c + 4 * k.qc, 4 * k.q + 4);
      }
    } else {
      Div4(n + 1, 500 + k.q + 25 * k.c + 100 * k.qc, k.y + 1);
    }
  }

  /** The days up to 1 March of the year that the cycles give. */
  lemma MarchOfCycles(k: Cycles)
    requires 0 <= k.c < 4 && 0 <= k.q < 25 && 0 <= k.y < 4
    ensures DaysBeforeYear(2000 + Years(k)) + 59 + LeapDay(2000 + Years(k))
            == DaysBeforeYear(2000) + 60 + DaysOf(k) - k.rem
  {
    LeapInCycles(k);
    var n := 2000 + Years(k) - 1;
    var rest := 100 * k.c + 4 * k.q + k.y;
    if k.y == 0 { Div4(n, 499 + k.q + 25 * k.c + 100 * k.qc, 3); }
    else { Div4(n, 500 + k.q + 25 * k.c + 100 * k.qc, k.y - 1); }
    if 4 * k.q + k.y == 0 { Div100(n, 19 + k.c + 4 * k.qc, 99); }
    else { Div100(n, 20 + k.c + 4 * k.qc, 4 * k.q + k.y - 1); }
    if rest == 0 { Div400(n, 4 + k.qc, 399); }
    else { Div400(n, 5 + k.qc, rest - 1); }
  }

  // ------------------------------------------------------------ from the cycles to the date

  function MarchSum(m: nat): int
    requires m <= 12
  {
    if m == 0 then 0 else MarchSum(m - 1) + DAYS_IN_MONTH[m - 1]
  }

  lemma MarchSums()
    ensures MarchSum(1) == 31 && MarchSum(2) == 61 && MarchSum(3) == 92 && MarchSum(4) == 122
    ensures MarchSum(5) == 153 && MarchSum(6) == 184 && MarchSum(7) == 214 && MarchSum(8) == 245
    ensures MarchSum(9) == 275 && MarchSum(10) == 306 && MarchSum(11) == 337 && MarchSum(12) == 366
  {
    assert MarchSum(3) == MarchSum(2) + 31;
    assert MarchSum(6) == MarchSum(5) + 31;
    assert MarchSum(9) == MarchSum(8) + 30;
  }

  /** The date that the C code puts together. */
  function DateOf(k: Cycles, m: nat, mday: int, remsecs: int, wday: int, yday: int): Time {
    Time(Years(k) + 100 + (if m + 2 >= 12 then 1 else 0), if m + 2 >= 12 then m + 2 - 12 else m + 2, mday,
         remsecs / 3600, remsecs / 60 % 60, remsecs % 60, wday, yday)
  }

  lemma DateIsRight(k: Cycles, m: nat, mday: int, remsecs: int, wday: int, yday: int)
    requires InCycles(k) && m < 12 && 0 <= remsecs < 86400
    requires MarchSum(m) + mday - 1 == k.rem && 1 <= mday <= DAYS_IN_MONTH[m]
    ensures var tm := DateOf(k, m, mday, remsecs, wday, yday);
            && Exists(tm) && DayNumber(tm) == DaysOf(k) + 11017
            && DayOfYear(tm) == (k.rem + 59 + LeapDay(2000 + Years(k)))
                                - (if m >= 10 then 365 + LeapDay(2000 + Years(k)) else 0)
  {
    hide IsLeap, DaysBeforeYear, DaysOf, MarchSum, MonthLength, DaysBeforeMonth, DayOfYear;
    var y := 2000 + Years(k);
    YearStep(y);
    DaysTo2000();
    MarchOfCycles(k);
    Clock(remsecs);
    MonthIsRight(DateOf(k, m, mday, remsecs, wday, yday), y, m, mday, k.rem);
  }

  /** The month that starts m months after 1 March of year y. */
  lemma MonthIsRight(tm: Time, y: int, m: nat, mday: int, rem: int)
    requires m < 12 && 1 <= mday <= DAYS_IN_MONTH[m] && MarchSum(m) + mday - 1 == rem
    requires rem < 365 + LeapDay(y + 1)
    requires tm.year == y - 1900 + (if m >= 10 then 1 else 0) && tm.mon == (if m >= 10 then m - 10 else m + 2)
    requires tm.mday == mday
    ensures mday <= MonthLength(1900 + tm.year, tm.mon)
    ensures DayOfYear(tm) == rem + 59 + LeapDay(y) - (if m >= 10 then 365 + LeapDay(y) else 0)
  {
    hide IsLeap;
    MarchSums();
    if m >= 10 { Months(y + 1); } else { Months(y); }
  }

  lemma DaysTo2000()
    ensures DaysBeforeYear(2000) - DaysBeforeYear(1970) == 10957
  {
  }

  lemma Clock(remsecs: int)
    requires 0 <= remsecs < 86400
    ensures 0 <= remsecs / 3600 < 24 && 0 <= remsecs / 60 % 60 < 60 && 0 <= remsecs % 60 < 60
    ensures remsecs == remsecs / 3600 * 3600 + remsecs / 60 % 60 * 60 + remsecs % 60
  {
    assert remsecs / 60 / 60 == remsecs / 3600;
  }

  /** The year that starts with the last 1 March, counted from 1900 like tm_year. */
  function MarchYear(tm: Time): int { if tm.mon < 2 then tm.year - 1 else tm.year }

  // ------------------------------------------------------------ the C function

  /** struct tm in memory */
  class Tm {
    var year: int
    var mon: int
    var mday: int
    var hour: int
    var min: int
    var sec: int
    var wday: int
    var yday: int

    ghost function Value(): Time
      reads this
    {
      Time(year, mon, mday, hour, min, sec, wday, yday)
    }
  }

  /** The number of cycles in the days after 29 February 2000, which may be negative. */
  method FindCycles(days: int) returns (k: Cycles)
    ensures InCycles(k) && DaysOf(k) == days
  {
    hide Quot, Rem, IsLeap, InCycles, DaysOf;
    Floor(days, DAYS_PER_400Y);
    var qcCycles, remdays := Quot(days, DAYS_PER_400Y), Rem(days, DAYS_PER_400Y);
    if remdays < 0 {
      remdays := remdays + DAYS_PER_400Y;
      qcCycles := qcCycles - 1;
    }
    ghost var r0 := remdays;
    Of100(r0);
    var cCycles := remdays / DAYS_PER_100Y;
    if cCycles == 4 { cCycles := cCycles - 1; }
    remdays := remdays - cCycles * DAYS_PER_100Y;
    ghost var r1 := remdays;
    Of4(r1);
    var qCycles := remdays / DAYS_PER_4Y;
    if qCycles == 25 { qCycles := qCycles - 1; }
    remdays := remdays - qCycles * DAYS_PER_4Y;
    ghost var r2 := remdays;
    Of1(r2);
    var remyears := remdays / 365;
    if remyears == 4 { remyears := remyears - 1; }
    remdays := remdays - remyears * 365;
    k := Cycles(qcCycles, cCycles, qCycles, remyears, remdays);
    CyclesFit(k, days, r0, r1, r2);
  }

  lemma Of100(r: int)
    requires 0 <= r < DAYS_PER_400Y
    ensures var c := if r / DAYS_PER_100Y == 4 then 3 else r / DAYS_PER_100Y;
            && 0 <= c < 4 && 0 <= r - c * DAYS_PER_100Y <= DAYS_PER_100Y
            && (r - c * DAYS_PER_100Y == DAYS_PER_100Y ==> c == 3)
  {
  }

  lemma Of4(r: int)
    requires 0 <= r <= DAYS_PER_100Y
    ensures var q := if r / DAYS_PER_4Y == 25 then 24 else r / DAYS_PER_4Y;
            && 0 <= q < 25 && 0 <= r - q * DAYS_PER_4Y < DAYS_PER_4Y
            && (q == 24 && r < DAYS_PER_100Y ==> r - q * DAYS_PER_4Y < DAYS_PER_4Y - 1)
  {
  }

  lemma Of1(r: int)
    requires 0 <= r < DAYS_PER_4Y
    ensures var y := if r / 365 == 4 then 3 else r / 365;
            && 0 <= y < 4 && 0 <= r - y * 365 <= 365
            && (r - y * 365 == 365 ==> y == 3 && r == DAYS_PER_4Y - 1)
  {
  }

  lemma CyclesFit(k: Cycles, days: int, r0: int, r1: int, r2: int)
    requires 0 <= k.c < 4 && 0 <= k.q < 25 && 0 <= k.y < 4 && 0 <= k.rem <= 365
    requires days == k.qc * DAYS_PER_400Y + r0 && r1 == r0 - k.c * DAYS_PER_100Y
    requires r2 == r1 - k.q * DAYS_PER_4Y && k.rem == r2 - k.y * 365
    requires k.rem == 365 ==> k.y == 3 && r2 == DAYS_PER_4Y - 1
    requires k.q == 24 && r1 < DAYS_PER_100Y ==> r2 < DAYS_PER_4Y - 1
    requires r1 <= DAYS_PER_100Y && (r1 == DAYS_PER_100Y ==> k.c == 3)
    ensures InCycles(k) && DaysOf(k) == days
  {
    hide IsLeap, Years;
    LeapInCycles(k);
  }

  /** The month loop stops within the table. */
  method FindMonth(rem: int) returns (months: nat, remdays: int)
    requires 0 <= rem < 366
    ensures months < 12 && 0 <= remdays < DAYS_IN_MONTH[months] && MarchSum(months) + remdays == rem
  {
    MarchSums();
    months, remdays := 0, rem;
    while DAYS_IN_MONTH[months] <= remdays
      invariant months < 12 && 0 <= remdays && MarchSum(months) + remdays == rem
      decreases 12 - months
    {
      remdays := remdays - DAYS_IN_MONTH[months];
      months := months + 1;
    }
  }

  /** Whole days since 1 March 2000, the rest in seconds, and the day of the week. */
  method SplitSeconds(t: int) returns (days: int, remsecs: int, wday: int)
    ensures t - LEAPOCH == days * 86400 + remsecs && 0 <= remsecs < 86400
    ensures wday == (4 + (days + 11017)) % 7
  {
    hide Quot, Rem;
    var secs := t - LEAPOCH;
    Floor(secs, 86400);
    days, remsecs := Quot(secs, 86400), Rem(secs, 86400);
    if remsecs < 0 {
      remsecs := remsecs + 86400;
      days := days - 1;
    }
    Floor(3 + days, 7);
    ghost var q := Quot(3 + days, 7);
    wday := Rem(3 + days, 7);
    if wday < 0 {
      wday := wday + 7;
      q := q - 1;
    }
    assert 3 + days == q * 7 + wday;
    Weekday(days, wday);
  }

  /** The day of the year, which starts in January. */
  method YearDay(k: Cycles) returns (yday: int)
    requires InCycles(k)
    ensures var first := k.rem + 59 + LeapDay(2000 + Years(k));
            var length := 365 + LeapDay(2000 + Years(k));
            yday == if first >= length then first - length else first
  {
    hide IsLeap;
    LeapInCycles(k);
    var leap := if k.y == 0 && (k.q != 0 || k.c == 0) then 1 else 0;
    yday := k.rem + 31 + 28 + leap;
    if yday >= 365 + leap { yday := yday - (365 + leap); }
  }

  method Fill(tm: Tm, years: int, months: nat, remdays: int, wday: int, yday: int, remsecs: int)
    requires months < 12
    modifies tm
    ensures tm.Value() == Time(years + 100 + (if months >= 10 then 1 else 0), if months >= 10 then months - 10 else months + 2,
                               remdays + 1, remsecs / 3600, remsecs / 60 % 60, remsecs % 60, wday, yday)
  {
    tm.year := years + 100;
    tm.mon := months + 2;
    if tm.mon >= 12 {
      tm.mon := tm.mon - 12;
      tm.year := tm.year + 1;
    }
    tm.mday := remdays + 1;
    tm.wday := wday;
    tm.yday := yday;
    tm.hour := remsecs / 3600;
    tm.min := remsecs / 60 % 60;
    tm.sec := remsecs % 60;
  }

  /** __secs_to_tm: it fills tm with the date and time of day of t, exactly if t is between
      these bounds; otherwise it leaves tm alone.  Behind YEAR_END it stores a year that
      does not fit into an int. */
  method SecsToTm(t: int, tm: Tm) returns (status: int)
    modifies tm
    ensures status == 0 || (status == -1 && unchanged(tm))
    ensures status == 0 ==> IsDateOf(tm.Value(), t)
    ensures status == 0 <==> FIRST_SECOND <= t < END_SECOND
    ensures status == 0 ==> (INT_MIN <= tm.year <= INT_MAX <==> t < YEAR_END)
  {
    hide Exists, Seconds, DayNumber, DayOfYear, IsLeap, MarchSum, IsDateOf, InCycles, MarchYear;
    if t < INT_MIN * 31622400 || t > INT_MAX * 31622400 { return -1; }
    var days, remsecs, wday := SplitSeconds(t);
    var k := FindCycles(days);
    var yday := YearDay(k);
    var years := k.y + 4 * k.q + 100 * k.c + 400 * k.qc;
    RemFits(k);
    var months, remdays := FindMonth(k.rem);
    ghost var date := DateOf(k, months, remdays + 1, remsecs, wday, yday);
    DateFound(k, months, remdays, remsecs, wday, yday, t);
    MarchBounds(date, t);
    YearBounds(date, t);
    if years + 100 > INT_MAX || years + 100 < INT_MIN { return -1; }
    Fill(tm, years, months, remdays, wday, yday, remsecs);
    status := 0;
  }

  /** tm is the broken-down time of t. */
  predicate IsDateOf(tm: Time, t: int) {
    && Exists(tm) && Seconds(tm) == t
    && tm.yday == DayOfYear(tm)
    && tm.wday == (4 + DayNumber(tm)) % 7
  }

  // ------------------------------------------------------------ the bounds

  /** Midnight of 1 March in the year INT_MIN of struct tm. */
  const FIRST_SECOND := -67768040604556800

  /** Midnight of 1 March in the year INT_MAX + 1. */
  const END_SECOND := 67768036196860800

  /** Midnight of 1 January in the year INT_MAX + 1. */
  const YEAR_END := 67768036191676800

  function January(year: int): int { DaysBeforeYear(1900 + year) - DaysBeforeYear(1970) }

  function March(year: int): int { January(year) + 59 + LeapDay(1900 + year) }

  lemma TheBounds()
    ensures March(INT_MIN) * 86400 == FIRST_SECOND
    ensures March(INT_MAX + 1) * 86400 == END_SECOND
    ensures January(INT_MAX + 1) * 86400 == YEAR_END
  {
  }

  lemma DayOfSecond(tm: Time, t: int, day: int)
    requires Exists(tm) && Seconds(tm) == t
    ensures DayNumber(tm) >= day <==> t >= day * 86400
  {
    hide DayNumber, MonthLength;
    assert 0 <= tm.hour * 3600 + tm.min * 60 + tm.sec < 86400;
  }

  /** The year of a date is decided by the Januaries. */
  lemma YearOfDay(tm: Time, year: int)
    requires Exists(tm)
    ensures tm.year < year <==> DayNumber(tm) < January(year)
  {
    hide IsLeap, DaysBeforeYear, DayOfYear, MonthLength;
    DayOfYearFits(tm);
    if tm.year < year { YearsApart(1900 + tm.year, 1900 + year); }
    if year < tm.year { YearsApart(1900 + year, 1900 + tm.year); }
  }

  /** The year from March on is decided by the Marches. */
  lemma MarchYearOfDay(tm: Time, year: int)
    requires Exists(tm)
    ensures MarchYear(tm) < year <==> DayNumber(tm) < March(year)
  {
    hide IsLeap, DaysBeforeYear, MonthLength, DaysBeforeMonth;
    DayOfYearFits(tm);
    YearOfDay(tm, year);
    YearOfDay(tm, year + 1);
    Months(1900 + tm.year);
    YearStep(1900 + year);
    if tm.mon >= 2 { FromMarch(tm); } else { BeforeMarch(tm); }
  }

  lemma FromMarch(tm: Time)
    requires Exists(tm) && tm.mon >= 2
    ensures DayOfYear(tm) >= 59 + LeapDay(1900 + tm.year)
  {
    hide IsLeap;
    Months(1900 + tm.year);
    if tm.mon > 2 { MonthsApart(1900 + tm.year, 2, tm.mon); }
  }

  lemma BeforeMarch(tm: Time)
    requires Exists(tm) && tm.mon < 2
    ensures DayOfYear(tm) < 59 + LeapDay(1900 + tm.year)
  {
    hide IsLeap;
    Months(1900 + tm.year);
  }

  lemma MarchBounds(tm: Time, t: int)
    requires IsDateOf(tm, t)
    ensures INT_MIN <= MarchYear(tm) <= INT_MAX <==> FIRST_SECOND <= t < END_SECOND
  {
    hide Exists, Seconds, DayNumber, DayOfYear, MarchYear, March;
    TheBounds();
    MarchYearOfDay(tm, INT_MIN);
    MarchYearOfDay(tm, INT_MAX + 1);
    DayOfSecond(tm, t, March(INT_MIN));
    DayOfSecond(tm, t, March(INT_MAX + 1));
  }

  lemma YearBounds(tm: Time, t: int)
    requires IsDateOf(tm, t)
    ensures tm.year <= INT_MAX <==> t < YEAR_END
    ensures MarchYear(tm) <= tm.year
  {
    hide Exists, Seconds, DayNumber, DayOfYear, January;
    TheBounds();
    YearOfDay(tm, INT_MAX + 1);
    DayOfSecond(tm, t, January(INT_MAX + 1));
  }

  // ------------------------------------------------------------ every second has a date

  lemma CyclesExist(days: int) returns (k: Cycles)
    ensures InCycles(k) && DaysOf(k) == days
  {
    hide IsLeap, InCycles, DaysOf;
    var qc, r0 := days / DAYS_PER_400Y, days % DAYS_PER_400Y;
    Of100(r0);
    var c := if r0 / DAYS_PER_100Y == 4 then 3 else r0 / DAYS_PER_100Y;
    var r1 := r0 - c * DAYS_PER_100Y;
    Of4(r1);
    var q := if r1 / DAYS_PER_4Y == 25 then 24 else r1 / DAYS_PER_4Y;
    var r2 := r1 - q * DAYS_PER_4Y;
    Of1(r2);
    var y := if r2 / 365 == 4 then 3 else r2 / 365;
    k := Cycles(qc, c, q, y, r2 - y * 365);
    CyclesFit(k, days, r0, r1, r2);
  }

  lemma {:induction false} MonthExists(m: nat, rem: int) returns (months: nat, remdays: int)
    requires m < 12 && MarchSum(m) <= rem < 366
    ensures months < 12 && 0 <= remdays < DAYS_IN_MONTH[months] && MarchSum(months) + remdays == rem
    decreases 12 - m
  {
    if rem - MarchSum(m) < DAYS_IN_MONTH[m] {
      months, remdays := m, rem - MarchSum(m);
    } else {
      MarchSums();
      months, remdays := MonthExists(m + 1, rem);
    }
  }

  lemma DateExists(t: int) returns (date: Time)
    ensures IsDateOf(date, t)
  {
    hide Exists, Seconds, DayNumber, DayOfYear, IsLeap, MarchSum, IsDateOf, InCycles, DaysOf;
    var secs := t - LEAPOCH;
    var days, remsecs := secs / 86400, secs % 86400;
    var k := CyclesExist(days);
    RemFits(k);
    MarchSums();
    assert MarchSum(0) == 0 by { MarchStart(); }
    var m, remdays := MonthExists(0, k.rem);
    var first, length := k.rem + 59 + LeapDay(2000 + Years(k)), 365 + LeapDay(2000 + Years(k));
    var yday := if first >= length then first - length else first;
    var wday := (4 + (days + 11017)) % 7;
    date := DateOf(k, m, remdays + 1, remsecs, wday, yday);
    DateFound(k, m, remdays, remsecs, wday, yday, t);
  }

  lemma MarchStart()
    ensures MarchSum(0) == 0
  {
  }

  /** t has a date whose March year is an int. */
  ghost predicate HasDate(t: int) {
    exists x: Time :: Exists(x) && Seconds(x) == t && INT_MIN <= MarchYear(x) <= INT_MAX
  }

  /** t has a date whose year is an int. */
  ghost predicate HasYear(t: int) {
    exists x: Time :: Exists(x) && Seconds(x) == t && INT_MIN <= x.year <= INT_MAX
  }

  /** The times with a date whose March year fits an int are those between the bounds; and
      of these, the ones whose year itself fits are those before YEAR_END. */
  lemma BoundsDecide(t: int)
    ensures HasDate(t) <==> FIRST_SECOND <= t < END_SECOND
    ensures HasDate(t) ==> (HasYear(t) <==> t < YEAR_END)
  {
    hide Seconds, DayNumber, DayOfYear, MonthLength, IsLeap, MarchYear;
    var date := DateExists(t);
    MarchBounds(date, t);
    YearBounds(date, t);
    forall x: Time | Exists(x) && Seconds(x) == t ensures x.year == date.year && MarchYear(x) == MarchYear(date) {
      SecondsDecide(x, date);
      SameMarchYear(x, date);
    }
    assert Exists(date) && Seconds(date) == t;
  }

  lemma SameMarchYear(x: Time, y: Time)
    requires x.(wday := 0, yday := 0) == y.(wday := 0, yday := 0)
    ensures MarchYear(x) == MarchYear(y)
  {
  }

  /** The first second for which the C code overflows an int: midnight of a 1 January. */
  lemma YearOverflows()
    ensures var tm := Time(INT_MAX + 1, 0, 1, 0, 0, 0, (4 + January(INT_MAX + 1)) % 7, 0);
            IsDateOf(tm, YEAR_END) && FIRST_SECOND <= YEAR_END < END_SECOND && tm.year > INT_MAX
  {
    hide DaysBeforeYear, IsLeap;
    TheBounds();
  }

  lemma RemFits(k: Cycles)
    requires InCycles(k)
    ensures 0 <= k.rem < 366
  {
  }

  lemma DateFound(k: Cycles, m: nat, remdays: int, remsecs: int, wday: int, yday: int, t: int)
    requires InCycles(k) && m < 12 && MarchSum(m) + remdays == k.rem && 0 <= remdays < DAYS_IN_MONTH[m]
    requires t - LEAPOCH == DaysOf(k) * 86400 + remsecs && 0 <= remsecs < 86400
    requires wday == (4 + (DaysOf(k) + 11017)) % 7
    requires var first := k.rem + 59 + LeapDay(2000 + Years(k));
             var length := 365 + LeapDay(2000 + Years(k));
             yday == if first >= length then first - length else first
    ensures var date := DateOf(k, m, remdays + 1, remsecs, wday, yday);
            IsDateOf(date, t) && MarchYear(date) == Years(k) + 100
  {
    hide Seconds, DayNumber, DayOfYear, IsLeap, DaysOf, MonthLength;
    var date := DateOf(k, m, remdays + 1, remsecs, wday, yday);
    DateIsRight(k, m, remdays + 1, remsecs, wday, yday);
    SecondsOfDate(date, DaysOf(k), remsecs, t);
    YdayIs(k, m, remdays, yday);
  }

  lemma SecondsOfDate(date: Time, days: int, remsecs: int, t: int)
    requires date.mon >= 0 && DayNumber(date) == days + 11017 && t - LEAPOCH == days * 86400 + remsecs
    requires 0 <= remsecs < 86400
    requires date.hour == remsecs / 3600 && date.min == remsecs / 60 % 60 && date.sec == remsecs % 60
    ensures Seconds(date) == t
  {
    hide DayNumber;
    Clock(remsecs);
  }

  lemma Weekday(days: int, wday: int)
    requires 0 <= wday < 7 && exists q :: 3 + days == q * 7 + wday
    ensures wday == (4 + (days + 11017)) % 7
  {
    var q :| 3 + days == q * 7 + wday;
    assert 4 + days + 11017 == (q + 1574) * 7 + wday;
  }

  lemma YdayIs(k: Cycles, m: nat, remdays: int, yday: int)
    requires InCycles(k) && m < 12 && MarchSum(m) + remdays == k.rem && 0 <= remdays < DAYS_IN_MONTH[m]
    ensures m >= 10 <==> k.rem + 59 + LeapDay(2000 + Years(k)) >= 365 + LeapDay(2000 + Years(k))
  {
    MarchSums();
  }
}
