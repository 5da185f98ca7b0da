/** The calendar arithmetic of the real-time clock against the Gregorian calendar counted day by day. */
module Rtc {
  import opened Prelude

  /** Rust's signed division, truncating toward zero. */
  function Div(a: int, b: int): int
    requires b > 0
  {
    if a >= 0 then a / b else -((-a) / b)
  }

  /** Days since 1970-01-01 by the closed formula. */
  function DaysFromCivil(year: int, month: int, day: int): int
  {
    var y := if month <= 2 then year - 1 else year;
    var era := Div(if y >= 0 then y else y - 399, 400);
    var yoe := y - era * 400;
    var doy := Div(153 * (if month > 2 then month - 3 else month + 9) + 2, 5) + day - 1;
    var doe := yoe * 365 + Div(yoe, 4) - Div(yoe, 100) + doy;
    era * 146097 + doe - 719468
  }

  function CivilToUnixSecs(year: nat, month: nat, day: nat, hour: nat, min: nat, sec: nat): nat
  {
    var secs := DaysFromCivil(year, month, day) * 86400 + hour * 3600 + min * 60 + sec;
    if secs < 0 then 0 else secs
  }

  // ---- the calendar ----

  predicate Leap(year: nat)
  {
    year % 4 == 0 && (year % 100 != 0 || year % 400 == 0)
  }

  function YearLength(year: nat): nat
  {
    if Leap(year) then 366 else 365
  }

  function MonthLength(year: nat, month: nat): nat
  {
    if month == 2 then (if Leap(year) then 29 else 28)
    else if month == 4 || month == 6 || month == 9 || month == 11 then 30
    else 31
  }

  predicate ValidDate(year: nat, month: nat, day: nat)
  {
    year >= 1970 && 1 <= month <= 12 && 1 <= day <= MonthLength(year, month)
  }

  predicate ValidTime(hour: nat, min: nat, sec: nat)
  {
    hour < 24 && min < 60 && sec < 60
  }

  /** Days in the years from 1970 up to, not including, `year`. */
  function DaysInYears(year: nat): nat
    requires year >= 1970
  {
    if year == 1970 then 0 else DaysInYears(year - 1) + YearLength(year - 1)
  }

  /** Days in the months of `year` before `month`. */
  function DaysInMonths(year: nat, month: nat): nat
    requires 1 <= month <= 13
  {
    if month == 1 then 0 else DaysInMonths(year, month - 1) + MonthLength(year, month - 1)
  }

  /** Days since 1970-01-01 counted along the calendar. */
  function DayCount(year: nat, month: nat, day: nat): nat
    requires year >= 1970 && 1 <= month <= 12 && day >= 1
  {
    DaysInYears(year) + DaysInMonths(year, month) + (day - 1)
  }

  /** Days in the `y` years counted from March of year 0, by the rule of fours, hundreds and four hundreds. */
  function MarchYears(y: nat): int
  {
    365 * y + y / 4 - y / 100 + y / 400
  }

  /** Counting within 400-year eras is the same rule. */
  lemma ErasAreLinear(y: nat)
    ensures y / 400 * 146097 + y % 400 * 365 + y % 400 / 4 - y % 400 / 100 == MarchYears(y)
  {
    var era, yoe := y / 400, y % 400;
    assert y / 4 == era * 100 + yoe / 4;
    assert y / 100 == era * 4 + yoe / 100;
  }

  /** Days from the first of March to the first of the month. */
  function FromMarch(month: nat): int
  {
    (153 * (if month > 2 then month - 3 else month + 9) + 2) / 5
  }

  /** Month by month the offsets differ by the month's length, except across the end of February. */
  lemma FromMarchStep(year: nat, month: nat)
    requires 1 <= month < 12 && month != 2
    ensures FromMarch(month + 1) == FromMarch(month) + MonthLength(year, month)
  {
  }

  /** The formula, with the month's offset from March spelled out. */
  lemma FormulaFromMarch(year: nat, month: nat, day: int)
    requires year >= 1 && 1 <= month <= 12
    ensures DaysFromCivil(year, month, day) ==
            MarchYears(if month <= 2 then year - 1 else year) + FromMarch(month) + day - 719469
  {
    var y := if month <= 2 then year - 1 else year;
    ErasAreLinear(y);
    assert y - y / 400 * 400 == y % 400;
  }

  lemma QuotientStep(y: nat, k: nat)
    requires y >= 1 && (k == 4 || k == 100 || k == 400)
    ensures y / k - (y - 1) / k == if y % k == 0 then 1 else 0
  {
  }

  /** One more March year adds a leap day exactly when the February it ends with has one. */
  lemma MarchYearStep(y: nat)
    requires y >= 1
    ensures MarchYears(y) == MarchYears(y - 1) + YearLength(y)
  {
    QuotientStep(y, 4);
    QuotientStep(y, 100);
    QuotientStep(y, 400);
    Multiples(y);
  }

  lemma Multiples(y: nat)
    ensures y % 400 == 0 ==> y % 100 == 0
    ensures y % 100 == 0 ==> y % 4 == 0
  {
    if y % 400 == 0 {
      Quotient(y, 100, 4 * (y / 400), 0);
    }
    if y % 100 == 0 {
      Quotient(y, 4, 25 * (y / 100), 0);
    }
  }

  lemma YearStep(year: nat)
    requires year >= 1970
    ensures DaysFromCivil(year + 1, 1, 1) == DaysFromCivil(year, 1, 1) + YearLength(year)
  {
    FormulaFromMarch(year, 1, 1);
    FormulaFromMarch(year + 1, 1, 1);
    MarchYearStep(year);
  }

  lemma MonthStep(year: nat, month: nat)
    requires year >= 1970 && 1 <= month < 12
    ensures DaysFromCivil(year, month + 1, 1) == DaysFromCivil(year, month, 1) + MonthLength(year, month)
  {
    FormulaFromMarch(year, month, 1);
    FormulaFromMarch(year, month + 1, 1);
    if month == 2 {
      MarchYearStep(year);
    } else {
      FromMarchStep(year, month);
    }
  }

  lemma {:induction false} YearStarts(year: nat)
    requires year >= 1970
    ensures DaysFromCivil(year, 1, 1) == DaysInYears(year)
  {
    if year > 1970 {
      YearStarts(year - 1);
      YearStep(year - 1);
    }
  }

  lemma {:induction false} MonthStarts(year: nat, month: nat)
    requires year >= 1970 && 1 <= month <= 12
    ensures DaysFromCivil(year, month, 1) == DaysInYears(year) + DaysInMonths(year, month)
  {
    if month == 1 {
      YearStarts(year);
    } else {
      MonthStarts(year, month - 1);
      MonthStep(year, month - 1);
    }
  }

  /** For every date from 1970 on the closed formula is the day-by-day count. */
  lemma FormulaIsDayCount(year: nat, month: nat, day: nat)
    requires ValidDate(year, month, day)
    ensures DaysFromCivil(year, month, day) == DayCount(year, month, day)
  {
    MonthStarts(year, month);
    FormulaFromMarch(year, month, 1);
    FormulaFromMarch(year, month, day);
  }

  /** The Unix time of a valid timestamp: 86400 for every full day since the epoch, plus the time of day. */
  lemma UnixSecs(year: nat, month: nat, day: nat, hour: nat, min: nat, sec: nat)
    requires ValidDate(year, month, day)
    ensures CivilToUnixSecs(year, month, day, hour, min, sec) == DayCount(year, month, day) * 86400 + hour * 3600 + min * 60 + sec
  {
    FormulaIsDayCount(year, month, day);
  }

  lemma Epoch()
    ensures CivilToUnixSecs(1970, 1, 1, 0, 0, 0) == 0
  {
    UnixSecs(1970, 1, 1, 0, 0, 0);
  }

  // ---- order ----

  datatype Date = Date(year: nat, month: nat, day: nat)

  predicate Valid(d: Date)
  {
    ValidDate(d.year, d.month, d.day)
  }

  predicate Before(d: Date, e: Date)
  {
    d.year < e.year || (d.year == e.year && (d.month < e.month || (d.month == e.month && d.day < e.day)))
  }

  /** The calendar day after a valid date. */
  function NextDay(d: Date): (e: Date)
    requires Valid(d)
    ensures Valid(e) && Before(d, e)
  {
    if d.day < MonthLength(d.year, d.month) then Date(d.year, d.month, d.day + 1)
    else if d.month < 12 then Date(d.year, d.month + 1, 1)
    else Date(d.year + 1, 1, 1)
  }

  lemma YearHasItsMonths(year: nat)
    ensures DaysInMonths(year, 13) == YearLength(year)
  {
    var x := if Leap(year) then 1 else 0;
    assert DaysInMonths(year, 2) == 31;
    assert DaysInMonths(year, 3) == 59 + x;
    assert DaysInMonths(year, 4) == 90 + x;
    assert DaysInMonths(year, 5) == 120 + x;
    assert DaysInMonths(year, 6) == 151 + x;
    assert DaysInMonths(year, 7) == 181 + x;
    assert DaysInMonths(year, 8) == 212 + x;
    assert DaysInMonths(year, 9) == 243 + x;
    assert DaysInMonths(year, 10) == 273 + x;
    assert DaysInMonths(year, 11) == 304 + x;
    assert DaysInMonths(year, 12) == 334 + x;
  }

  lemma NextDayCount(d: Date)
    requires Valid(d)
    ensures var e := NextDay(d); DayCount(e.year, e.month, e.day) == DayCount(d.year, d.month, d.day) + 1
  {
    if d.month == 12 {
      YearHasItsMonths(d.year);
      assert DaysInMonths(d.year, 13) == DaysInMonths(d.year, 12) + MonthLength(d.year, 12);
    }
  }

  /** Midnight to midnight is exactly one day, across month and year ends. */
  lemma NextDayAddsOneDay(d: Date, hour: nat, min: nat, sec: nat)
    requires Valid(d)
    ensures var e := NextDay(d);
            CivilToUnixSecs(e.year, e.month, e.day, hour, min, sec) == CivilToUnixSecs(d.year, d.month, d.day, hour, min, sec) + 86400
  {
    var e := NextDay(d);
    UnixSecs(d.year, d.month, d.day, hour, min, sec);
    UnixSecs(e.year, e.month, e.day, hour, min, sec);
    NextDayCount(d);
  }

  lemma {:induction false} YearsGrow(y: nat, z: nat)
    requires 1970 <= y < z
    ensures DaysInYears(y) + YearLength(y) <= DaysInYears(z)
  {
    if y + 1 < z {
      YearsGrow(y, z - 1);
    }
  }

  lemma {:induction false} MonthsGrow(year: nat, m: nat, n: nat)
    requires 1 <= m < n <= 13
    ensures DaysInMonths(year, m) + MonthLength(year, m) <= DaysInMonths(year, n)
  {
    if m + 1 < n {
      MonthsGrow(year, m, n - 1);
    }
  }

  lemma DaysIncrease(d: Date, e: Date)
    requires Valid(d) && Valid(e) && Before(d, e)
    ensures DayCount(d.year, d.month, d.day) < DayCount(e.year, e.month, e.day)
  {
    if d.year < e.year {
      YearsGrow(d.year, e.year);
      MonthsGrow(d.year, d.month, 13);
      YearHasItsMonths(d.year);
    } else if d.month < e.month {
      MonthsGrow(d.year, d.month, e.month);
    }
  }

  /** Later timestamps have strictly larger Unix times, so distinct timestamps never collide. */
  lemma StrictlyIncreasing(d: Date, h: nat, m: nat, s: nat, e: Date, h': nat, m': nat, s': nat)
    requires Valid(d) && Valid(e) && ValidTime(h, m, s) && ValidTime(h', m', s')
    requires Before(d, e) || (d == e && h * 3600 + m * 60 + s < h' * 3600 + m' * 60 + s')
    ensures CivilToUnixSecs(d.year, d.month, d.day, h, m, s) < CivilToUnixSecs(e.year, e.month, e.day, h', m', s')
  {
    UnixSecs(d.year, d.month, d.day, h, m, s);
    UnixSecs(e.year, e.month, e.day, h', m', s');
    if Before(d, e) {
      DaysIncrease(d, e);
    }
  }
}
