/**
 The two calendar conversions of the program, written in different files: the SigV4
 timestamp of the sync client goes from days to a date (packages/api/src/sync.rs), the
 release clock from a date to days (packages/proxy-core/src/update.rs).
 */
module Calendar {

  datatype Date = Date(year: int, month: int, day: int)

  /** Division as the source's integer types do it: the quotient is truncated toward zero. */
  function Quot(a: int, b: int): int
    requires b > 0
  {
    if a >= 0 then a / b else -((-a) / b)
  }

  /** `days_from_civil`, for any month number; arguments need not form a date. */
  function DaysFromCivil(date: Date): int {
    var year := if date.month <= 2 then date.year - 1 else date.year;
    var era := Quot(if year >= 0 then year else year - 399, 400);
    var yearOfEra := year - era * 400;
    var shiftedMonth := if date.month > 2 then date.month - 3 else date.month + 9;
    var dayOfYear := Quot(153 * shiftedMonth + 2, 5) + date.day - 1;
    var dayOfEra := yearOfEra * 365 + Quot(yearOfEra, 4) - Quot(yearOfEra, 100) + dayOfYear;
    era * 146_097 + dayOfEra - 719_468
  }

  /** `civil_from_days`. */
  function CivilFromDays(days: int): Date {
    var shifted := days + 719_468;
    var era := Quot(if shifted >= 0 then shifted else shifted - 146_096, 146_097);
    CivilWithinEra(era, shifted - era * 146_097)
  }

  function CivilWithinEra(era: int, dayOfEra: int): Date {
    var yearOfEra :=
      Quot(dayOfEra - Quot(dayOfEra, 1_460) + Quot(dayOfEra, 36_524) - Quot(dayOfEra, 146_096), 365);
    var year := yearOfEra + era * 400;
    var dayOfYear := dayOfEra - (365 * yearOfEra + Quot(yearOfEra, 4) - Quot(yearOfEra, 100));
    var monthPrime := Quot(5 * dayOfYear + 2, 153);
    var day := dayOfYear - Quot(153 * monthPrime + 2, 5) + 1;
    var month := monthPrime + (if monthPrime < 10 then 3 else -9);
    Date(if month <= 2 then year + 1 else year, month, day)
  }

  // ---------------------------------------------------------------------
  // The Gregorian calendar, stated independently
  // ---------------------------------------------------------------------

  predicate IsLeap(year: int) {
    year % 4 == 0 && (year % 100 != 0 || year % 400 == 0)
  }

  function DaysInMonth(year: int, month: int): int
    requires 1 <= month <= 12
  {
    if month == 2 then (if IsLeap(year) then 29 else 28)
    else if month in {4, 6, 9, 11} then 30
    else 31
  }

  predicate IsDate(date: Date) {
    1 <= date.month <= 12 && 1 <= date.day <= DaysInMonth(date.year, date.month)
  }

  /** The day after. */
  function Successor(date: Date): (next: Date)
    requires IsDate(date)
    ensures IsDate(next)
  {
    if date.day < DaysInMonth(date.year, date.month) then date.(day := date.day + 1)
    else if date.month < 12 then Date(date.year, date.month + 1, 1)
    else Date(date.year + 1, 1, 1)
  }

  // ---------------------------------------------------------------------
  // Years and days counted from the first of March of year zero of an era
  // ---------------------------------------------------------------------

  /** Days of an era before the given year of it; years start in March. */
  function YearStart(yearOfEra: int): int {
    365 * yearOfEra + yearOfEra / 4 - yearOfEra / 100
  }

  /** Length of the year of era that starts in March of it: its February is next year's. */
  function YearLength(yearOfEra: int): int {
    if IsLeap(yearOfEra + 1) then 366 else 365
  }

  /** The closed form for the year of era finds the year whose days include the given one. */
  function YearOfEra(dayOfEra: int): int {
    (dayOfEra - dayOfEra / 1_460 + dayOfEra / 36_524 - dayOfEra / 146_096) / 365
  }

  lemma YearsAreConsecutive(y: int)
    requires 0 <= y < 400
    ensures YearStart(y + 1) + (if y == 399 then 1 else 0) == YearStart(y) + YearLength(y)
  {
    var c, q, k := YearParts(y);
    if y < 399 {
      hide YearStart, YearLength;
      var c', q', k' := YearParts(y + 1);
    }
  }

  lemma YearOfEraIsExact(y: int, d: int)
    requires 0 <= y < 400 && 0 <= d < YearLength(y)
    ensures YearOfEra(YearStart(y) + d) == y
  {
    var c, q, k := YearParts(y);
    var e := LeapCorrection(c, q, k, d);
    CenturyOfEra(c, 1_461 * q + 365 * k + d);
    DivUnique(365 * y + (d - e), 365, y);
  }

  /** A year of era as centuries, four-year cycles and single years. */
  lemma YearParts(y: int) returns (c: int, q: int, k: int)
    requires 0 <= y < 400
    ensures 0 <= c < 4 && 0 <= q < 25 && 0 <= k < 4 && y == 100 * c + 4 * q + k
    ensures YearStart(y) == 36_524 * c + 1_461 * q + 365 * k
    ensures YearLength(y) == 366 <==> k == 3 && (c == 3 || q < 24)
  {
    c := y / 100;
    q, k := y % 100 / 4, y % 4;
  }

  /** The first quotient of the closed form counts the leap days before the day, and one
      more near the end of a cycle. */
  lemma LeapCorrection(c: int, q: int, k: int, d: int) returns (e: int)
    requires 0 <= c < 4 && 0 <= q < 25 && 0 <= k < 4
    requires 0 <= d < if k == 3 && (c == 3 || q < 24) then 366 else 365
    ensures (36_524 * c + 1_461 * q + 365 * k + d) / 1_460 == 25 * c + q + e
    ensures 0 <= d - e < 365
  {
    e := if q + 365 * k + d + 24 * c >= 1_460 then 1 else 0;
    DivUnique(36_524 * c + 1_461 * q + 365 * k + d, 1_460, 25 * c + q + e);
  }

  lemma CenturyOfEra(c: int, w: int)
    requires 0 <= c < 4 && 0 <= w && (if c == 3 then w <= 36_524 else w < 36_524)
    ensures (36_524 * c + w) / 36_524 - (36_524 * c + w) / 146_096 == c
  {
  }

  /** Every day of an era falls in exactly one year of it. */
  lemma {:induction false} DayHasAYear(dayOfEra: int) returns (y: int)
    requires 0 <= dayOfEra < 146_097
    ensures 0 <= y < 400 && YearStart(y) <= dayOfEra < YearStart(y) + YearLength(y)
  {
    y := 0;
    while dayOfEra >= YearStart(y) + YearLength(y)
      invariant 0 <= y < 400 && YearStart(y) <= dayOfEra
    {
      YearsAreConsecutive(y);
      y := y + 1;
    }
  }

  // ---------------------------------------------------------------------
  // Months of a year that starts in March
  // ---------------------------------------------------------------------

  function MonthStart(monthPrime: int): int {
    (153 * monthPrime + 2) / 5
  }

  function MonthOfDay(dayOfYear: int): int {
    (5 * dayOfYear + 2) / 153
  }

  function MonthNumber(monthPrime: int): int {
    monthPrime + (if monthPrime < 10 then 3 else -9)
  }

  /** The closed form for the month finds the month whose days include the given one. */
  lemma MonthOfDayIsExact(monthPrime: int, day: int)
    requires 0 <= monthPrime < 12
    requires 0 <= day < if monthPrime == 11 then 29 else MonthStart(monthPrime + 1) - MonthStart(monthPrime)
    ensures MonthOfDay(MonthStart(monthPrime) + day) == monthPrime
  {
  }

  lemma MonthLengths(yearOfEra: int, era: int, monthPrime: int)
    requires 0 <= monthPrime < 12 && 0 <= yearOfEra < 400
    ensures
      var year := yearOfEra + 400 * era + (if monthPrime < 10 then 0 else 1);
      DaysInMonth(year, MonthNumber(monthPrime)) ==
      if monthPrime == 11 then YearLength(yearOfEra) - MonthStart(11)
      else MonthStart(monthPrime + 1) - MonthStart(monthPrime)
  {
    LeapIsPeriodic(yearOfEra + 1, era);
  }

  lemma LeapIsPeriodic(year: int, era: int)
    ensures IsLeap(year + 400 * era) == IsLeap(year)
  {
    ModPeriodic(year, 400, era);
    ModPeriodic(year, 100, 4 * era);
    ModPeriodic(year, 4, 100 * era);
  }

  lemma ModPeriodic(a: int, b: int, k: int)
    requires b > 0
    ensures (a + b * k) % b == a % b
  {
    DivUnique(a + b * k, b, a / b + k);
  }

  // ---------------------------------------------------------------------
  // The two conversions in these coordinates
  // ---------------------------------------------------------------------

  lemma QuotFloors(a: int, b: int)
    requires b > 0
    ensures Quot(if a >= 0 then a else a - (b - 1), b) == a / b
    ensures a >= 0 ==> Quot(a, b) == a / b
  {
    if a < 0 {
      var q := (-a + (b - 1)) / b;
      assert Quot(a - (b - 1), b) == -q;
      DivUnique(a, b, -q);
    }
  }

  lemma DivUnique(a: int, b: int, q: int)
    requires b > 0 && q * b <= a < q * b + b
    ensures a / b == q
  {
    var r := a / b;
    assert r * b <= a < r * b + b;
    assert (r - q) * b == r * b - q * b;
    MultipleOf(r - q, b);
  }

  lemma MultipleOf(x: int, b: int)
    requires b > 0
    ensures x >= 1 ==> x * b >= b
    ensures x <= -1 ==> x * b <= -b
  {
  }

  lemma DaysInCoordinates(era: int, yearOfEra: int, monthPrime: int, day: int)
    requires 0 <= yearOfEra < 400 && 0 <= monthPrime < 12 && day >= 0
    ensures
      DaysFromCivil(Date(yearOfEra + 400 * era + (if monthPrime < 10 then 0 else 1), MonthNumber(monthPrime), day + 1)) ==
      era * 146_097 + YearStart(yearOfEra) + MonthStart(monthPrime) + day - 719_468
  {
    var year := yearOfEra + 400 * era;
    QuotFloors(year, 400);
    DivUnique(year, 400, era);
  }

  lemma EraOfDay(era: int, dayOfEra: int)
    requires 0 <= dayOfEra < 146_097
    ensures
      var shifted := era * 146_097 + dayOfEra;
      Quot(if shifted >= 0 then shifted else shifted - 146_096, 146_097) == era
  {
    QuotFloors(era * 146_097 + dayOfEra, 146_097);
    DivUnique(era * 146_097 + dayOfEra, 146_097, era);
  }

  lemma YearWithinEra(y: int, d: int)
    requires 0 <= y < 400 && 0 <= d < YearLength(y)
    ensures
      var n := YearStart(y) + d;
      0 <= n < 146_097 && Quot(n - Quot(n, 1_460) + Quot(n, 36_524) - Quot(n, 146_096), 365) == y
  {
    var n := YearStart(y) + d;
    assert 0 <= n < 146_097;
    YearOfEraIsExact(y, d);
    assert 0 <= n / 1_460 <= n && 0 <= n / 36_524 && 0 <= n / 146_096 <= n / 36_524;
  }

  lemma DayOfYearBounds(y: int, m: int, day: int)
    requires 0 <= y < 400 && 0 <= m < 12
    requires 0 <= day < if m == 11 then YearLength(y) - MonthStart(11) else MonthStart(m + 1) - MonthStart(m)
    ensures 0 <= MonthStart(m) + day < YearLength(y)
  {
  }

  lemma CivilInEraCoordinates(era: int, y: int, m: int, day: int)
    requires 0 <= y < 400 && 0 <= m < 12
    requires 0 <= day < if m == 11 then YearLength(y) - MonthStart(11) else MonthStart(m + 1) - MonthStart(m)
    ensures 0 <= YearStart(y) + MonthStart(m) + day < 146_097
    ensures CivilWithinEra(era, YearStart(y) + MonthStart(m) + day) ==
            Date(y + 400 * era + (if m < 10 then 0 else 1), MonthNumber(m), day + 1)
  {
    DayOfYearBounds(y, m, day);
    YearWithinEra(y, MonthStart(m) + day);
    MonthOfDayIsExact(m, day);
  }

  lemma CivilInCoordinates(era: int, y: int, m: int, day: int)
    requires 0 <= y < 400 && 0 <= m < 12
    requires 0 <= day < if m == 11 then YearLength(y) - MonthStart(11) else MonthStart(m + 1) - MonthStart(m)
    ensures CivilFromDays(era * 146_097 + YearStart(y) + MonthStart(m) + day - 719_468) ==
            Date(y + 400 * era + (if m < 10 then 0 else 1), MonthNumber(m), day + 1)
  {
    hide CivilFromDays, CivilWithinEra;
    CivilInEraCoordinates(era, y, m, day);
    CivilOfEraDay(era, YearStart(y) + MonthStart(m) + day);
  }

  lemma CivilOfEraDay(era: int, dayOfEra: int)
    requires 0 <= dayOfEra < 146_097
    ensures CivilFromDays(era * 146_097 + dayOfEra - 719_468) == CivilWithinEra(era, dayOfEra)
  {
    EraOfDay(era, dayOfEra);
  }

  /** Each date has coordinates. */
  lemma Coordinates(date: Date) returns (era: int, yearOfEra: int, monthPrime: int)
    requires IsDate(date)
    ensures 0 <= yearOfEra < 400 && 0 <= monthPrime < 12
    ensures date == Date(yearOfEra + 400 * era + (if monthPrime < 10 then 0 else 1), MonthNumber(monthPrime), date.day)
    ensures date.day <= if monthPrime == 11 then YearLength(yearOfEra) - MonthStart(11)
                        else MonthStart(monthPrime + 1) - MonthStart(monthPrime)
  {
    var year := if date.month <= 2 then date.year - 1 else date.year;
    era, yearOfEra := year / 400, year % 400;
    monthPrime := if date.month > 2 then date.month - 3 else date.month + 9;
    MonthLengths(yearOfEra, era, monthPrime);
  }

  // ---------------------------------------------------------------------
  // Main results
  // ---------------------------------------------------------------------

  /** A date survives the trip through its day number, before and after year zero. */
  lemma CivilInvertsDays(date: Date)
    requires IsDate(date)
    ensures CivilFromDays(DaysFromCivil(date)) == date
  {
    hide CivilFromDays, DaysFromCivil;
    var era, yearOfEra, monthPrime := Coordinates(date);
    DaysInCoordinates(era, yearOfEra, monthPrime, date.day - 1);
    CivilInCoordinates(era, yearOfEra, monthPrime, date.day - 1);
  }

  /** Every day number is the number of a Gregorian date, and survives the trip through it. */
  lemma DaysInvertCivil(days: int)
    ensures IsDate(CivilFromDays(days))
    ensures DaysFromCivil(CivilFromDays(days)) == days
  {
    hide CivilFromDays, DaysFromCivil;
    var era, y, m, day := DayCoordinates(days);
    CivilInCoordinates(era, y, m, day);
    DaysInCoordinates(era, y, m, day);
    MonthLengths(y, era, m);
  }

  lemma DayCoordinates(days: int) returns (era: int, y: int, m: int, day: int)
    ensures 0 <= y < 400 && 0 <= m < 12
    ensures 0 <= day < if m == 11 then YearLength(y) - MonthStart(11) else MonthStart(m + 1) - MonthStart(m)
    ensures days == era * 146_097 + YearStart(y) + MonthStart(m) + day - 719_468
  {
    era := (days + 719_468) / 146_097;
    y := DayHasAYear((days + 719_468) % 146_097);
    var dayOfYear := (days + 719_468) % 146_097 - YearStart(y);
    m := MonthOfDay(dayOfYear);
    day := dayOfYear - MonthStart(m);
  }

  lemma DaysWithinMonth(date: Date)
    ensures DaysFromCivil(date) == DaysFromCivil(date.(day := 1)) + date.day - 1
  {
  }

  /** The first of the next month is as many days on as the month is long. */
  lemma NextMonthStarts(year: int, month: int)
    requires 1 <= month <= 12
    ensures
      var next := if month < 12 then Date(year, month + 1, 1) else Date(year + 1, 1, 1);
      DaysFromCivil(next) == DaysFromCivil(Date(year, month, 1)) + DaysInMonth(year, month)
  {
    hide DaysFromCivil;
    var era, y, m := Coordinates(Date(year, month, 1));
    DaysInCoordinates(era, y, m, 0);
    MonthLengths(y, era, m);
    if m < 11 {
      DaysInCoordinates(era, y, m + 1, 0);
    } else {
      YearsAreConsecutive(y);
      if y < 399 {
        DaysInCoordinates(era, y + 1, 0, 0);
      } else {
        DaysInCoordinates(era + 1, 0, 0, 0);
      }
    }
  }

  /** The day number counts days: the next date has the next number. */
  lemma SuccessorIsNextDay(date: Date)
    requires IsDate(date)
    ensures DaysFromCivil(Successor(date)) == DaysFromCivil(date) + 1
  {
    DaysWithinMonth(date);
    if date.day < DaysInMonth(date.year, date.month) {
      DaysWithinMonth(Successor(date));
    } else {
      NextMonthStarts(date.year, date.month);
    }
  }

  /** Day 0 is the first of January 1970, and the date of day n + 1 is the successor of the date of
      day n, which is a Gregorian date: this leaves no other way to number the days. */
  lemma CivilStepsThroughTheCalendar(days: int)
    ensures CivilFromDays(0) == Date(1970, 1, 1)
    ensures IsDate(CivilFromDays(days))
    ensures CivilFromDays(days + 1) == Successor(CivilFromDays(days))
  {
    hide CivilFromDays, DaysFromCivil;
    EpochDate();
    DaysInvertCivil(days);
    DateOfNextDay(CivilFromDays(days), days);
  }

  lemma EpochDate()
    ensures CivilFromDays(0) == Date(1970, 1, 1)
  {
  }

  lemma DateOfNextDay(date: Date, days: int)
    requires IsDate(date) && DaysFromCivil(date) == days
    ensures CivilFromDays(days + 1) == Successor(date)
  {
    hide CivilFromDays, DaysFromCivil;
    SuccessorIsNextDay(date);
    CivilInvertsDays(Successor(date));
  }

  // ---------------------------------------------------------------------
  // Timestamps
  // ---------------------------------------------------------------------

  datatype Stamp = Stamp(date: Date, hour: int, minute: int, second: int)

  /** The fields that `aws_timestamp` prints for a Unix time. */
  function StampOf(timestamp: nat): Stamp {
    var seconds := timestamp % 86_400;
    Stamp(CivilFromDays(timestamp / 86_400), seconds / 3_600, seconds % 3_600 / 60, seconds % 60)
  }

  /** `unix_from_rfc3339` once its fields are read: -1 stands for a refused stamp. */
  function UnixOf(stamp: Stamp): int {
    if 1 <= stamp.date.month <= 12 && 1 <= stamp.date.day <= 31 && 1970 <= stamp.date.year <= 9999
       && 0 <= stamp.hour <= 23 && 0 <= stamp.minute <= 59 && 0 <= stamp.second <= 60
    then
      var seconds := DaysFromCivil(stamp.date) * 86_400 + stamp.hour * 3_600 + stamp.minute * 60 + stamp.second;
      if seconds < 0 then -1 else seconds
    else -1
  }

  /** The release clock reads every timestamp back that the sync client can print, up to the
      end of the year 9999, and refuses all later ones. */
  lemma StampsRecombine(timestamp: nat)
    ensures UnixOf(StampOf(timestamp)) == (if timestamp < 253_402_300_800 then timestamp as int else -1)
  {
    var days := timestamp / 86_400;
    DaysInvertCivil(days);
    YearNineThousand(days);
    ClockRecombines(CivilFromDays(days), timestamp);
  }

  lemma ClockRecombines(date: Date, timestamp: nat)
    requires IsDate(date) && DaysFromCivil(date) == timestamp / 86_400 && 1970 <= date.year
    ensures
      var seconds := timestamp % 86_400;
      UnixOf(Stamp(date, seconds / 3_600, seconds % 3_600 / 60, seconds % 60)) ==
      if date.year <= 9999 then timestamp as int else -1
  {
    var seconds := timestamp % 86_400;
    assert timestamp == timestamp / 86_400 * 86_400 + seconds;
    ClockFields(seconds);
  }

  lemma ClockFields(seconds: nat)
    requires seconds < 86_400
    ensures seconds / 3_600 <= 23 && seconds % 3_600 / 60 <= 59 && seconds % 60 <= 59
    ensures seconds == seconds / 3_600 * 3_600 + seconds % 3_600 / 60 * 60 + seconds % 60
  {
  }

  /** The days whose year the release clock accepts. */
  lemma YearNineThousand(days: nat)
    ensures 1970 <= CivilFromDays(days).year
    ensures CivilFromDays(days).year <= 9999 <==> days < 2_932_897
  {
    DaysInvertCivil(days);
    YearOfDay(CivilFromDays(days), days);
  }

  lemma YearOfDay(date: Date, days: nat)
    requires IsDate(date) && DaysFromCivil(date) == days
    ensures 1970 <= date.year
    ensures date.year <= 9999 <==> days < 2_932_897
  {
    KnownDays();
    hide DaysFromCivil;
    if date.year < 1970 {
      YearsAreOrdered(date, Date(1970, 1, 1));
    }
    if date.year <= 9999 {
      YearsAreOrdered(date, Date(10000, 1, 1));
    } else {
      YearsAreOrdered(Date(9999, 12, 31), date);
    }
  }

  lemma KnownDays()
    ensures DaysFromCivil(Date(1970, 1, 1)) == 0
    ensures DaysFromCivil(Date(9999, 12, 31)) == 2_932_896
    ensures DaysFromCivil(Date(10000, 1, 1)) == 2_932_897
  {
  }

  /** Earlier years have smaller day numbers. */
  lemma YearsAreOrdered(a: Date, b: Date)
    requires IsDate(a) && IsDate(b) && a.year < b.year
    ensures DaysFromCivil(a) < DaysFromCivil(b)
  {
    hide DaysFromCivil;
    var era, y, m := Coordinates(a);
    var era', y', m' := Coordinates(b);
    DaysInCoordinates(era, y, m, a.day - 1);
    DaysInCoordinates(era', y', m', b.day - 1);
    DayOfYearBounds(y, m, a.day - 1);
    if era == era' && y < y' {
      YearStartsAreOrdered(y, y');
    } else if era == era' {
      assert m < 10 <= m';
    } else {
      assert YearStart(y) + YearLength(y) <= 146_097 by {
        YearsAreConsecutive(y);
        YearStartsAreOrdered(y, 400);
      }
    }
  }

  lemma {:induction false} YearStartsAreOrdered(y: int, y': int)
    requires 0 <= y < y' <= 400
    ensures YearStart(y) + YearLength(y) <= YearStart(y') + (if y' == 400 then 1 else 0)
    decreases y' - y
  {
    YearsAreConsecutive(y);
    if y + 1 < y' {
      YearStartsAreOrdered(y + 1, y');
    }
  }
}
