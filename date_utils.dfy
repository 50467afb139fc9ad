/** Calendar arithmetic on epoch days (days since 1970-01-01, UTC), after the
    Date time-value algorithms of ECMA-262 section 21.4.1 (DayFromYear,
    YearFromTime, MonthFromTime, DateFromTime, MakeDay, WeekDay), and the
    `YYYY-MM-DD` strings of ISO 8601:2004 section 4.1.2.2 with an unpadded year.
    A JavaScript `Date` at UTC midnight is represented by its epoch day. */
module DateUtils {
  import opened Wrappers
  import opened Collections

  // ---------------------------------------------------------------------------
  // Years

  predicate IsLeapYear(y: int) {
    y % 4 == 0 && (y % 100 != 0 || y % 400 == 0)
  }

  function DaysInYear(y: int): int {
    if IsLeapYear(y) then 366 else 365
  }

  /** Epoch day of 1 January of year `y` (ECMA-262 DayFromYear), counted year
      by year from 1970 rather than by the closed formula. */
  function DayFromYear(y: int): int
    decreases if y >= 1970 then y - 1970 else 1970 - y
  {
    if y == 1970 then 0
    else if y > 1970 then DayFromYear(y - 1) + DaysInYear(y - 1)
    else DayFromYear(y + 1) - DaysInYear(y)
  }

  lemma DayFromYearStep(y: int)
    ensures DayFromYear(y + 1) == DayFromYear(y) + DaysInYear(y)
  {
  }

  lemma {:induction false} DayFromYearMonotone(a: int, b: int)
    requires a <= b
    ensures DayFromYear(a) <= DayFromYear(b)
    decreases b - a
  {
    if a < b {
      DayFromYearStep(b - 1);
      DayFromYearMonotone(a, b - 1);
    }
  }

  /** The year holding epoch day `z`, found by walking year by year from `y`. */
  function YearSearch(y: int, z: int): (r: int)
    ensures DayFromYear(r) <= z < DayFromYear(r + 1)
    decreases (if z < DayFromYear(y) then 1 else 0),
              (if z < DayFromYear(y) then DayFromYear(y) - z else z - DayFromYear(y))
  {
    DayFromYearStep(y - 1);
    DayFromYearStep(y);
    if z < DayFromYear(y) then YearSearch(y - 1, z)
    else if z < DayFromYear(y + 1) then y
    else YearSearch(y + 1, z)
  }

  /** ECMA-262 YearFromTime, in days: the largest year whose 1 January is not after `z`. */
  function YearFromDay(z: int): (y: int)
    ensures DayFromYear(y) <= z < DayFromYear(y + 1)
  {
    YearSearch(1970, z)
  }

  /** A day lies in exactly one year. */
  lemma YearFromDayUnique(y: int, z: int)
    requires DayFromYear(y) <= z < DayFromYear(y + 1)
    ensures YearFromDay(z) == y
  {
    var r := YearFromDay(z);
    if r < y {
      DayFromYearMonotone(r + 1, y);
    } else if r > y {
      DayFromYearMonotone(y + 1, r);
    }
  }

  lemma YearFromDayMonotone(a: int, b: int)
    requires a <= b
    ensures YearFromDay(a) <= YearFromDay(b)
  {
    if YearFromDay(a) > YearFromDay(b) {
      DayFromYearMonotone(YearFromDay(b) + 1, YearFromDay(a));
    }
  }

  // ---------------------------------------------------------------------------
  // Months (0-based here, as in `getUTCMonth()`)

  function DaysInMonth(y: int, m: int): int
    requires 0 <= m < 12
  {
    if m == 1 then (if IsLeapYear(y) then 29 else 28)
    else if m == 3 || m == 5 || m == 8 || m == 10 then 30
    else 31
  }

  /** Days of year `y` before month `m`; `m == 12` gives the length of the year. */
  function DaysBeforeMonth(y: int, m: int): int
    requires 0 <= m <= 12
  {
    var leap := if IsLeapYear(y) then 1 else 0;
    if m == 0 then 0
    else if m == 1 then 31
    else if m == 2 then 59 + leap
    else if m == 3 then 90 + leap
    else if m == 4 then 120 + leap
    else if m == 5 then 151 + leap
    else if m == 6 then 181 + leap
    else if m == 7 then 212 + leap
    else if m == 8 then 243 + leap
    else if m == 9 then 273 + leap
    else if m == 10 then 304 + leap
    else if m == 11 then 334 + leap
    else 365 + leap
  }

  lemma DaysBeforeMonthStep(y: int, m: int)
    requires 0 <= m < 12
    ensures DaysBeforeMonth(y, m) + DaysInMonth(y, m) == DaysBeforeMonth(y, m + 1)
  {
  }

  /** The month holding day-of-year `doy`, searching downwards from `m`. */
  function MonthSearch(y: int, doy: int, m: int): (r: int)
    requires 0 <= m < 12
    ensures 0 <= r <= m
    ensures 0 <= doy ==> DaysBeforeMonth(y, r) <= doy
    ensures doy < DaysBeforeMonth(y, m + 1) ==> doy < DaysBeforeMonth(y, r + 1)
    decreases m
  {
    if m == 0 || DaysBeforeMonth(y, m) <= doy then m else MonthSearch(y, doy, m - 1)
  }

  /** ECMA-262 MakeDay for integer arguments: the month overflows into the year
      and the date counts on from the first of the month (0 is the day before). */
  function MakeDay(year: int, month: int, date: int): int {
    var ym := year + month / 12;
    var mn := month % 12;
    DayFromYear(ym) + DaysBeforeMonth(ym, mn) + date - 1
  }

  /** The year `Date.UTC` means: ECMA-262 reads a year 0..99 as 1900..1999. */
  function FullYear(year: int): (y: int)
    ensures !(0 <= y <= 99)
  {
    if 0 <= year <= 99 then 1900 + year else year
  }

  /** `Date.UTC(year, month, date)` in days. */
  function DateUTC(year: int, month: int, date: int): int {
    MakeDay(FullYear(year), month, date)
  }

  /** The calendar fields of a day; `month` is 1-based (`getUTCMonth() + 1`). */
  datatype Date = Date(year: int, month: int, day: int)

  predicate ValidDate(d: Date) {
    1 <= d.month <= 12 && 1 <= d.day <= DaysInMonth(d.year, d.month - 1)
  }

  /** `epochDayToDate`: the calendar fields of day `z`. */
  function EpochDayToDate(z: int): (d: Date)
    ensures ValidDate(d)
  {
    var y := YearFromDay(z);
    var doy := z - DayFromYear(y);
    DayOfMonthInRange(y, doy);
    var m := MonthSearch(y, doy, 11);
    Date(y, m + 1, doy - DaysBeforeMonth(y, m) + 1)
  }

  /** The month search places a day of the year on a date of its month. */
  lemma DayOfMonthInRange(y: int, doy: int)
    requires 0 <= doy < DayFromYear(y + 1) - DayFromYear(y)
    ensures 1 <= doy - DaysBeforeMonth(y, MonthSearch(y, doy, 11)) + 1 <= DaysInMonth(y, MonthSearch(y, doy, 11))
  {
    DayFromYearStep(y);
    DaysBeforeMonthStep(y, MonthSearch(y, doy, 11));
  }

  /** Day `z` is its year's first day, plus the days of the earlier months,
      plus its date less one. */
  lemma EpochDayToDateOffset(z: int)
    ensures DayFromYear(EpochDayToDate(z).year) + DaysBeforeMonth(EpochDayToDate(z).year, EpochDayToDate(z).month - 1) +
            EpochDayToDate(z).day - 1 == z
  {
    EpochDayToDateFields(z);
  }

  /** The fields of day `z`, unfolded. */
  lemma EpochDayToDateFields(z: int)
    ensures var y := YearFromDay(z);
            var m := MonthSearch(y, z - DayFromYear(y), 11);
            EpochDayToDate(z) == Date(y, m + 1, z - DayFromYear(y) - DaysBeforeMonth(y, m) + 1)
  {
  }

  /** The fields of a day denote that day again. */
  lemma EpochDayToDateDenotes(z: int)
    ensures MakeDay(EpochDayToDate(z).year, EpochDayToDate(z).month - 1, EpochDayToDate(z).day) == z
  {
    var d := EpochDayToDate(z);
    MakeDayInYear(d.year, d.month - 1, d.day);
    EpochDayToDateOffset(z);
  }

  /** The year field of a day is ECMA-262 YearFromTime. */
  lemma EpochDayToDateYear(z: int)
    ensures EpochDayToDate(z).year == YearFromDay(z)
  {
  }

  /** Distinct days have distinct calendar fields. */
  lemma EpochDayToDateInjective(a: int, b: int)
    requires EpochDayToDate(a) == EpochDayToDate(b)
    ensures a == b
  {
    EpochDayToDateDenotes(a);
    EpochDayToDateDenotes(b);
  }

  /** Within a year, MakeDay is the year's first day plus the day of the year. */
  lemma MakeDayInYear(y: int, m: int, d: int)
    requires 0 <= m < 12
    ensures MakeDay(y, m, d) == DayFromYear(y) + DaysBeforeMonth(y, m) + d - 1
  {
    assert m / 12 == 0 && m % 12 == m;
  }

  /** ECMA-262 WeekDay: 0 is Sunday; epoch day 0 was a Thursday. */
  function WeekDay(z: int): (w: int)
    ensures 0 <= w < 7
  {
    (z + 4) % 7
  }

  /** A valid calendar date is recovered from its epoch day. */
  lemma MakeDayRoundTrip(d: Date)
    requires ValidDate(d)
    ensures EpochDayToDate(MakeDay(d.year, d.month - 1, d.day)) == d
  {
    var y, m := d.year, d.month - 1;
    var z := MakeDay(y, m, d.day);
    var doy := DaysBeforeMonth(y, m) + d.day - 1;
    MakeDayInYear(y, m, d.day);
    DaysBeforeMonthStep(y, m);
    EpochDayToDateAt(z, y, m, doy);
    assert d == Date(y, m + 1, doy - DaysBeforeMonth(y, m) + 1);
  }

  /** The fields of a day, given its year, month and day of the year. */
  lemma EpochDayToDateAt(z: int, y: int, m: int, doy: int)
    requires doy == z - DayFromYear(y)
    requires 0 <= m < 12 && 0 <= DaysBeforeMonth(y, m) <= doy < DaysBeforeMonth(y, m + 1)
    ensures EpochDayToDate(z) == Date(y, m + 1, doy - DaysBeforeMonth(y, m) + 1)
  {
    assert doy < DaysBeforeMonth(y, 12) by {
      DaysBeforeMonthMonotone(y, m + 1, 12);
    }
    DayFromYearStep(y);
    YearFromDayUnique(y, z);
    assert YearFromDay(z) == y;
    MonthSearchUnique(y, doy, 11, m);
    assert MonthSearch(y, doy, 11) == m;
  }

  lemma {:induction false} MonthSearchUnique(y: int, doy: int, m: int, k: int)
    requires 0 <= k <= m < 12 && DaysBeforeMonth(y, k) <= doy < DaysBeforeMonth(y, k + 1)
    ensures MonthSearch(y, doy, m) == k
    decreases m
  {
    if k < m {
      DaysBeforeMonthMonotone(y, k + 1, m);
      MonthSearchUnique(y, doy, m - 1, k);
    }
  }

  lemma {:induction false} DaysBeforeMonthMonotone(y: int, a: int, b: int)
    requires 0 <= a <= b <= 12
    ensures DaysBeforeMonth(y, a) <= DaysBeforeMonth(y, b)
    decreases b - a
  {
    if a < b {
      DaysBeforeMonthMonotone(y, a, b - 1);
    }
  }

  // ---------------------------------------------------------------------------
  // Month indices: k = 12 * year + (month - 1)

  /** Epoch day of the first day of month index `k`, counted month by month
      from January 1970 (month index 23640). */
  function FirstDayOfMonthIndex(k: int): int
    decreases if k >= 23640 then k - 23640 else 23640 - k
  {
    if k == 23640 then 0
    else if k > 23640 then FirstDayOfMonthIndex(k - 1) + DaysInMonth((k - 1) / 12, (k - 1) % 12)
    else FirstDayOfMonthIndex(k + 1) - DaysInMonth(k / 12, k % 12)
  }

  /** The month index of day `z`. */
  function MonthIndex(z: int): int {
    var d := EpochDayToDate(z);
    12 * d.year + d.month - 1
  }

  lemma FirstDayStep(k: int)
    ensures FirstDayOfMonthIndex(k + 1) == FirstDayOfMonthIndex(k) + DaysInMonth(k / 12, k % 12)
  {
  }

  /** MakeDay advances by the length of a month from one month index to the next. */
  lemma MakeDayStep(k: int)
    ensures MakeDay((k + 1) / 12, (k + 1) % 12, 1) == MakeDay(k / 12, k % 12, 1) + DaysInMonth(k / 12, k % 12)
  {
    var y, m := k / 12, k % 12;
    MakeDayInYear(y, m, 1);
    DaysBeforeMonthStep(y, m);
    if m == 11 {
      assert (k + 1) / 12 == y + 1 && (k + 1) % 12 == 0;
      MakeDayInYear(y + 1, 0, 1);
      DayFromYearStep(y);
    } else {
      assert (k + 1) / 12 == y && (k + 1) % 12 == m + 1;
      MakeDayInYear(y, m + 1, 1);
    }
  }

  /** Counting month by month agrees with MakeDay. */
  lemma {:induction false} FirstDayIsMakeDay(k: int)
    ensures FirstDayOfMonthIndex(k) == MakeDay(k / 12, k % 12, 1)
    decreases if k >= 23640 then k - 23640 else 23640 - k
  {
    if k > 23640 {
      FirstDayIsMakeDay(k - 1);
      MakeDayStep(k - 1);
      assert k - 1 + 1 == k;
    } else if k < 23640 {
      FirstDayIsMakeDay(k + 1);
      MakeDayStep(k);
    } else {
      MakeDayInYear(1970, 0, 1);
    }
  }

  lemma MakeDayByIndex(y: int, m: int, d: int)
    ensures MakeDay(y, m, d) == FirstDayOfMonthIndex(12 * y + m) + d - 1
  {
    var k := 12 * y + m;
    assert k / 12 == y + m / 12 && k % 12 == m % 12;
    FirstDayIsMakeDay(k);
    MakeDayInYear(k / 12, k % 12, 1);
    MakeDayInYear(y + m / 12, m % 12, d);
    assert (m % 12) / 12 == 0 && (m % 12) % 12 == m % 12;
  }

  lemma {:induction false} FirstDayMonotone(a: int, b: int)
    requires a < b
    ensures FirstDayOfMonthIndex(a) < FirstDayOfMonthIndex(b)
    decreases b - a
  {
    FirstDayStep(b - 1);
    if a < b - 1 {
      FirstDayMonotone(a, b - 1);
    }
  }

  /** The days of month `k` are numbered 1, 2, ... from its first day. */
  lemma DayWithinMonth(k: int, z: int)
    requires FirstDayOfMonthIndex(k) <= z < FirstDayOfMonthIndex(k + 1)
    ensures EpochDayToDate(z) == Date(k / 12, k % 12 + 1, z - FirstDayOfMonthIndex(k) + 1)
    ensures MonthIndex(z) == k
  {
    var y, m := k / 12, k % 12;
    MonthStartInYear(k);
    DaysBeforeMonthStep(y, m);
    EpochDayToDateAt(z, y, m, z - DayFromYear(y));
    assert 12 * y + m == k;
  }

  /** Month index `k` starts `DaysBeforeMonth` days into its year and lasts
      `DaysInMonth` days. */
  lemma MonthStartInYear(k: int)
    ensures FirstDayOfMonthIndex(k) == DayFromYear(k / 12) + DaysBeforeMonth(k / 12, k % 12)
    ensures FirstDayOfMonthIndex(k + 1) == FirstDayOfMonthIndex(k) + DaysInMonth(k / 12, k % 12)
  {
    FirstDayIsMakeDay(k);
    MakeDayInYear(k / 12, k % 12, 1);
    FirstDayStep(k);
  }

  lemma MonthIndexBounds(z: int)
    ensures FirstDayOfMonthIndex(MonthIndex(z)) <= z < FirstDayOfMonthIndex(MonthIndex(z) + 1)
  {
    var d := EpochDayToDate(z);
    var k := 12 * d.year + d.month - 1;
    assert k == MonthIndex(z);
    assert k / 12 == d.year && k % 12 == d.month - 1;
    var first := FirstDayOfMonthIndex(k);
    assert first == z - d.day + 1 by {
      EpochDayToDateDenotes(z);
      MakeDayByIndex(d.year, d.month - 1, d.day);
    }
    var len := DaysInMonth(k / 12, k % 12);
    assert FirstDayOfMonthIndex(k + 1) == first + len by {
      FirstDayStep(k);
    }
    assert d.day <= len;
  }

  lemma MonthIndexMonotone(a: int, b: int)
    requires a <= b
    ensures MonthIndex(a) <= MonthIndex(b)
  {
    MonthIndexBounds(a);
    MonthIndexBounds(b);
    MonthOrder(a, b, MonthIndex(a), MonthIndex(b));
  }

  /** Months that hold ordered days are ordered. */
  lemma MonthOrder(a: int, b: int, ka: int, kb: int)
    requires a <= b
    requires FirstDayOfMonthIndex(ka) <= a && b < FirstDayOfMonthIndex(kb + 1)
    ensures ka <= kb
  {
    if kb + 1 < ka {
      FirstDayMonotone(kb + 1, ka);
    }
  }

  /** The last day of its month: the next day is a first of the month. */
  predicate IsMonthEnd(z: int) {
    EpochDayToDate(z + 1).day == 1
  }

  lemma LastDayOfMonthIndex(k: int)
    ensures IsMonthEnd(FirstDayOfMonthIndex(k + 1) - 1)
  {
    FirstDayStep(k + 1);
    DayWithinMonth(k + 1, FirstDayOfMonthIndex(k + 1));
  }

  /** A month has exactly one last day. */
  lemma MonthEndUnique(k: int, z: int)
    requires FirstDayOfMonthIndex(k) <= z < FirstDayOfMonthIndex(k + 1)
    requires IsMonthEnd(z)
    ensures z == FirstDayOfMonthIndex(k + 1) - 1
  {
    if z + 1 < FirstDayOfMonthIndex(k + 1) {
      DayWithinMonth(k, z + 1);
    }
  }

  /** Inside month `k`, a day has the date of the month's last day only when
      it is that day. */
  lemma SameDateAsLast(k: int, z: int)
    requires FirstDayOfMonthIndex(k) <= z < FirstDayOfMonthIndex(k + 1)
    ensures EpochDayToDate(z).day == EpochDayToDate(FirstDayOfMonthIndex(k + 1) - 1).day <==>
            z == FirstDayOfMonthIndex(k + 1) - 1
  {
    FirstDayStep(k);
    DayWithinMonth(k, z);
    DayWithinMonth(k, FirstDayOfMonthIndex(k + 1) - 1);
  }

  /** Inside month `k`, the month ends on its last day and on no other. */
  lemma MonthEndIsLast(k: int, z: int)
    requires FirstDayOfMonthIndex(k) <= z < FirstDayOfMonthIndex(k + 1)
    ensures IsMonthEnd(z) <==> z == FirstDayOfMonthIndex(k + 1) - 1
  {
    LastDayOfMonthIndex(k);
    if IsMonthEnd(z) {
      MonthEndUnique(k, z);
    }
  }

  /** Inside month `k`, a day has the date of the month's last day exactly when
      it is a month end. */
  lemma LastDateMeansMonthEnd(k: int, z: int)
    requires FirstDayOfMonthIndex(k) <= z < FirstDayOfMonthIndex(k + 1)
    ensures EpochDayToDate(z).day == EpochDayToDate(FirstDayOfMonthIndex(k + 1) - 1).day <==> IsMonthEnd(z)
  {
    SameDateAsLast(k, z);
    MonthEndIsLast(k, z);
  }

  /** A day has the date of its month's last day exactly when it is a month end. */
  lemma LastDateOfOwnMonth(z: int)
    ensures EpochDayToDate(z).day == EpochDayToDate(FirstDayOfMonthIndex(MonthIndex(z) + 1) - 1).day <==> IsMonthEnd(z)
  {
    MonthIndexBounds(z);
    LastDateMeansMonthEnd(MonthIndex(z), z);
  }

  /** `Date.UTC(y, m + 1, 0)` is the last day of a month, for every year. */
  lemma DayZeroIsMonthEnd(y: int, m: int)
    ensures IsMonthEnd(DateUTC(y, m + 1, 0))
  {
    var yr := if 0 <= y <= 99 then 1900 + y else y;
    var k := 12 * yr + m;
    assert DateUTC(y, m + 1, 0) == FirstDayOfMonthIndex(k + 1) - 1 by {
      MakeDayByIndex(yr, m + 1, 0);
    }
    LastDayOfMonthIndex(k);
  }

  // ---------------------------------------------------------------------------
  // Conversions

  /** A date of a month, its day from 1 to 31, lies in the year MakeDay is given. */
  lemma MakeDayYear(y: int, m: int, day: int)
    requires 0 <= m < 12 && 1 <= day <= 31
    ensures YearFromDay(MakeDay(y, m, day)) == y
  {
    MakeDayInYear(y, m, day);
    DaysBeforeMonthMonotone(y, m, 11);
    DayFromYearStep(y);
    YearFromDayUnique(y, MakeDay(y, m, day));
  }

  /** `dateToEpochDay(date)`: reads the date's fields back through `Date.UTC`. */
  function DateToEpochDay(d: Date): int {
    DateUTC(d.year, d.month - 1, d.day)
  }

  /** `dateToEpochDay` of a valid date: the day lies in the year `Date.UTC`
      reads (years 0..99 become 1900..1999), and outside the years 0..99 the
      day has exactly the date's fields. */
  lemma DateToEpochDayOfDate(d: Date)
    requires ValidDate(d)
    ensures YearFromDay(DateToEpochDay(d)) == FullYear(d.year)
    ensures !(0 <= d.year <= 99) ==> EpochDayToDate(DateToEpochDay(d)) == d
  {
    MakeDayYear(FullYear(d.year), d.month - 1, d.day);
    if !(0 <= d.year <= 99) {
      MakeDayRoundTrip(d);
    }
  }

  /** Reading a day's own fields back through `dateToEpochDay` never lands in
      the years 0..99, and changes nothing for a day outside them. */
  lemma ReadBack(z: int)
    ensures !(0 <= YearFromDay(DateToEpochDay(EpochDayToDate(z))) <= 99)
    ensures !(0 <= YearFromDay(z) <= 99) ==> DateToEpochDay(EpochDayToDate(z)) == z
  {
    EpochDayToDateYear(z);
    DateToEpochDayOfDate(EpochDayToDate(z));
    if !(0 <= YearFromDay(z) <= 99) {
      DateToEpochDayRoundTrip(z);
    }
  }

  /** `createEpochDay(year, month, day)`, with a 1-based month: `Date.UTC`
      builds the date, and `dateToEpochDay` reads its fields back through
      `Date.UTC` a second time. */
  function CreateEpochDay(year: int, month: int, day: int): int {
    DateToEpochDay(EpochDayToDate(DateUTC(year, month - 1, day)))
  }

  /** The second pass of `createEpochDay`: the day never lies in the years
      0..99, and when the first pass already lands outside them the second
      changes nothing. */
  lemma CreateEpochDaySecondPass(year: int, month: int, day: int)
    ensures !(0 <= YearFromDay(CreateEpochDay(year, month, day)) <= 99)
    ensures !(0 <= YearFromDay(DateUTC(year, month - 1, day)) <= 99) ==>
              CreateEpochDay(year, month, day) == DateUTC(year, month - 1, day)
  {
    ReadBack(DateUTC(year, month - 1, day));
  }

  /** For a month from 1 to 12 and a day from 1 to 31 the first pass already
      leaves the years 0..99, so `createEpochDay` is `Date.UTC` of the fields. */
  lemma CreateEpochDayInRange(year: int, month: int, day: int)
    requires 1 <= month <= 12 && 1 <= day <= 31
    ensures CreateEpochDay(year, month, day) == DateUTC(year, month - 1, day)
  {
    MakeDayYear(FullYear(year), month - 1, day);
    CreateEpochDaySecondPass(year, month, day);
  }

  /** Creating an epoch day and converting it back recovers the date, outside
      the years 0..99 that `Date.UTC` moves into the twentieth century. */
  lemma CreateEpochDayRoundTrip(d: Date)
    requires ValidDate(d) && !(0 <= d.year <= 99)
    ensures EpochDayToDate(CreateEpochDay(d.year, d.month, d.day)) == d
  {
    CreateEpochDayInRange(d.year, d.month, d.day);
    DateToEpochDayOfDate(d);
  }

  /** Epoch day 0 is 1970-01-01. */
  lemma EpochDayZero()
    ensures EpochDayToDate(0) == Date(1970, 1, 1)
  {
    MakeDayRoundTrip(Date(1970, 1, 1));
  }

  lemma DateToEpochDayRoundTrip(z: int)
    requires !(0 <= EpochDayToDate(z).year <= 99)
    ensures DateToEpochDay(EpochDayToDate(z)) == z
  {
    var d := EpochDayToDate(z);
    EpochDayToDateOffset(z);
    MakeDayInYear(d.year, d.month - 1, d.day);
    assert DateToEpochDay(d) == MakeDay(d.year, d.month - 1, d.day);
  }

  // ---------------------------------------------------------------------------
  // Month ends in a window

  /** No year in the window is one that `Date.UTC` rewrites. */
  predicate OutsideTwoDigitYears(startDay: int, endDay: int) {
    YearFromDay(startDay) > 99 || YearFromDay(endDay) < 0
  }

  /** Every element is a month end inside `[startDay, endDay]`. */
  predicate MonthEndsWithin(days: seq<int>, startDay: int, endDay: int) {
    forall i :: 0 <= i < |days| ==> startDay <= days[i] <= endDay && IsMonthEnd(days[i])
  }

  /** Every month end of `[startDay, endDay]` before `bound` is an element. */
  predicate CoversMonthEndsBefore(days: seq<int>, startDay: int, endDay: int, bound: int) {
    forall z :: startDay <= z <= endDay && z < bound && IsMonthEnd(z) ==> z in days
  }

  predicate AllBelow(days: seq<int>, bound: int) {
    forall i :: 0 <= i < |days| ==> days[i] < bound
  }

  /** Outside the years 0..99, `Date.UTC(year, month + 1, 0)` is the day before
      the first of the next month index. */
  lemma DayZeroByIndex(year: int, month: int)
    requires !(0 <= year <= 99)
    ensures DateUTC(year, month + 1, 0) == FirstDayOfMonthIndex(12 * year + month + 1) - 1
  {
    MakeDayByIndex(year, month + 1, 0);
  }

  /** Day 0 of the month after month `month` (0..11) lies in the year
      `Date.UTC` reads, so `dateToEpochDay` gives it back unchanged. */
  lemma MonthEndReadBack(year: int, month: int)
    requires 0 <= month <= 11
    ensures DateToEpochDay(EpochDayToDate(DateUTC(year, month + 1, 0))) == DateUTC(year, month + 1, 0)
  {
    var y := FullYear(year);
    var z := DateUTC(year, month + 1, 0);
    DayFromYearStep(y);
    if month < 11 {
      MakeDayInYear(y, month + 1, 0);
      DaysBeforeMonthMonotone(y, 1, month + 1);
      DaysBeforeMonthMonotone(y, month + 1, 11);
    } else {
      assert z == DayFromYear(y + 1) - 1;
    }
    YearFromDayUnique(y, z);
    ReadBack(z);
  }

  /** What the month-end scan has established once every month before month
      index `k` has been visited. */
  predicate ScannedBefore(days: seq<int>, startDay: int, endDay: int, good: bool, k: int) {
    MonthEndsWithin(days, startDay, endDay) &&
    (good ==> StrictlyAscending(days) && AllBelow(days, FirstDayOfMonthIndex(k)) &&
              CoversMonthEndsBefore(days, startDay, endDay, FirstDayOfMonthIndex(k)))
  }

  lemma KeepWithin(days: seq<int>, startDay: int, endDay: int, day: int, next: seq<int>)
    requires MonthEndsWithin(days, startDay, endDay) && IsMonthEnd(day)
    requires next == if startDay <= day <= endDay then days + [day] else days
    ensures MonthEndsWithin(next, startDay, endDay)
  {
  }

  /** Keeping the last day of month `k` when it is in the window extends the
      ascending, complete prefix of month ends by one month. */
  lemma KeepMonthEnd(days: seq<int>, startDay: int, endDay: int, k: int, day: int, next: seq<int>)
    requires StrictlyAscending(days) && AllBelow(days, FirstDayOfMonthIndex(k))
    requires CoversMonthEndsBefore(days, startDay, endDay, FirstDayOfMonthIndex(k))
    requires day == FirstDayOfMonthIndex(k + 1) - 1
    requires next == if startDay <= day <= endDay then days + [day] else days
    ensures StrictlyAscending(next) && AllBelow(next, FirstDayOfMonthIndex(k + 1))
    ensures CoversMonthEndsBefore(next, startDay, endDay, FirstDayOfMonthIndex(k + 1))
  {
    FirstDayStep(k);
    assert forall i :: 0 <= i < |days| ==> days[i] in next;
    forall z | startDay <= z <= endDay && z < FirstDayOfMonthIndex(k + 1) && IsMonthEnd(z)
      ensures z in next
    {
      if z >= FirstDayOfMonthIndex(k) {
        MonthEndUnique(k, z);
      }
    }
  }

  /** Visiting month `k` of `year` (keeping `Date.UTC(year, month + 1, 0)` when it
      lies in the window) extends the scan by one month. */
  lemma ScanOneMonth(days: seq<int>, startDay: int, endDay: int, good: bool,
                     year: int, month: int, k: int, day: int, next: seq<int>)
    requires ScannedBefore(days, startDay, endDay, good, k)
    requires k == 12 * year + month
    requires good ==> !(0 <= year <= 99)
    requires day == DateUTC(year, month + 1, 0)
    requires next == if startDay <= day <= endDay then days + [day] else days
    ensures ScannedBefore(next, startDay, endDay, good, k + 1)
  {
    DayZeroIsMonthEnd(year, month);
    KeepWithin(days, startDay, endDay, day, next);
    if good {
      DayZeroByIndex(year, month);
      KeepMonthEnd(days, startDay, endDay, k, day, next);
    }
  }

  /** One year of `getLastDaysOfMonthsInRange`: the months `startMonth` to
      `endMonth` (0-based) of `year`, appending each month's last day to `days0`
      when it lies in `[startDay, endDay]`. */
  method ScanMonthsOfYear(year: int, startMonth: int, endMonth: int, startDay: int, endDay: int,
                          days0: seq<int>, ghost good: bool, ghost k0: int)
    returns (days: seq<int>, ghost k: int)
    requires 0 <= startMonth && endMonth <= 11
    requires k0 == 12 * year + startMonth
    requires good ==> !(0 <= year <= 99)
    requires ScannedBefore(days0, startDay, endDay, good, k0)
    ensures k == 12 * year + (if startMonth <= endMonth + 1 then endMonth + 1 else startMonth)
    ensures ScannedBefore(days, startDay, endDay, good, k)
  {
    days, k := days0, k0;
    var month := startMonth;
    while month <= endMonth
      invariant startMonth <= month <= if startMonth <= endMonth + 1 then endMonth + 1 else startMonth
      invariant k == 12 * year + month
      invariant ScannedBefore(days, startDay, endDay, good, k)
    {
      // Last day of the month: day 0 of the next month
      var day := DateToEpochDay(EpochDayToDate(DateUTC(year, month + 1, 0)));
      MonthEndReadBack(year, month);
      ghost var before := days;
      if day >= startDay && day <= endDay {
        days := days + [day];
      }
      ScanOneMonth(before, startDay, endDay, good, year, month, k, day, days);
      month := month + 1;
      k := k + 1;
    }
  }

  /** `getLastDaysOfMonthsInRange`: the last day of each month from the month of
      `startDay` to the month of `endDay`, kept when inside `[startDay, endDay]`. */
  method GetLastDaysOfMonthsInRange(startDay: int, endDay: int) returns (days: seq<int>)
    ensures MonthEndsWithin(days, startDay, endDay)
    ensures OutsideTwoDigitYears(startDay, endDay) ==> StrictlyAscending(days)
    ensures OutsideTwoDigitYears(startDay, endDay) ==>
      forall z :: startDay <= z <= endDay && IsMonthEnd(z) ==> z in days
  {
    days := [];
    var startDate := EpochDayToDate(startDay);
    var endDate := EpochDayToDate(endDay);
    ghost var good := OutsideTwoDigitYears(startDay, endDay);
    assert good ==> startDate.year > 99 || endDate.year < 0;
    ghost var ks := 12 * startDate.year + startDate.month - 1;
    ghost var ke := 12 * endDate.year + endDate.month - 1;
    assert ke == MonthIndex(endDay);
    // k is the month index 12 * year + month of the next month to visit
    ghost var k := ks;
    ScanStart(startDay, endDay, good);

    var year := startDate.year;
    while year <= endDate.year
      invariant startDate.year <= year
      invariant year <= endDate.year ==> k == (if year == startDate.year then ks else 12 * year)
      invariant year > endDate.year ==> k > ke
      invariant ScannedBefore(days, startDay, endDay, good, k)
    {
      var startMonth := if year == startDate.year then startDate.month - 1 else 0;
      var endMonth := if year == endDate.year then endDate.month - 1 else 11;
      days, k := ScanMonthsOfYear(year, startMonth, endMonth, startDay, endDay, days, good, k);
      year := year + 1;
    }
    if good {
      ScanComplete(days, startDay, endDay, k);
    }
  }

  /** Nothing before the month of `startDay` is in the window. */
  lemma ScanStart(startDay: int, endDay: int, good: bool)
    ensures ScannedBefore([], startDay, endDay, good, MonthIndex(startDay))
  {
    MonthIndexBounds(startDay);
  }

  /** Once the scan has passed the month of `endDay`, every month end of the
      window has been kept. */
  lemma ScanComplete(days: seq<int>, startDay: int, endDay: int, k: int)
    requires k > MonthIndex(endDay)
    requires CoversMonthEndsBefore(days, startDay, endDay, FirstDayOfMonthIndex(k))
    ensures forall z :: startDay <= z <= endDay && IsMonthEnd(z) ==> z in days
  {
    BeforeLaterMonth(endDay, k);
  }

  /** A day lies before the first day of any later month. */
  lemma BeforeLaterMonth(z: int, k: int)
    requires k > MonthIndex(z)
    ensures z < FirstDayOfMonthIndex(k)
  {
    MonthIndexBounds(z);
    BeforeLaterFirstDay(z, MonthIndex(z), k);
  }

  lemma BeforeLaterFirstDay(z: int, a: int, k: int)
    requires FirstDayOfMonthIndex(a) <= z < FirstDayOfMonthIndex(a + 1) && k > a
    ensures z < FirstDayOfMonthIndex(k)
  {
    if a + 1 < k {
      FirstDayMonotone(a + 1, k);
    }
  }

  // ---------------------------------------------------------------------------
  // Strings

  predicate IsDigit(c: char) {
    '0' <= c <= '9'
  }

  predicate AllDigits(s: string) {
    forall i :: 0 <= i < |s| ==> IsDigit(s[i])
  }

  function DigitChar(n: int): (c: char)
    requires 0 <= n <= 9
    ensures IsDigit(c) && c as int - '0' as int == n
  {
    ('0' as int + n) as char
  }

  /** The value of a run of decimal digits. */
  function DigitsValue(s: string): nat
    requires AllDigits(s)
  {
    if s == [] then 0 else 10 * DigitsValue(s[..|s| - 1]) + (s[|s| - 1] as int - '0' as int)
  }

  /** Decimal digits of `n`, without leading zeros (`String(n)` for n >= 0). */
  function NatToString(n: nat): (s: string)
    ensures |s| >= 1 && AllDigits(s)
    ensures n > 0 ==> s[0] != '0'
  {
    if n < 10 then [DigitChar(n)] else NatToString(n / 10) + [DigitChar(n % 10)]
  }

  /** `String(n)` for an integer. */
  function IntToString(n: int): string {
    if n < 0 then "-" + NatToString(-n) else NatToString(n)
  }

  lemma {:induction false} NatToStringValue(n: nat)
    ensures DigitsValue(NatToString(n)) == n
  {
    if n >= 10 {
      var s := NatToString(n);
      assert s[..|s| - 1] == NatToString(n / 10);
      NatToStringValue(n / 10);
    }
  }

  /** `s.padStart(2, "0")`. */
  function PadStart2(s: string): string {
    if |s| == 0 then "00" else if |s| == 1 then "0" + s else s
  }

  /** The two-digit field that `formatDateString` prints for a month or a day. */
  lemma TwoDigitField(n: int)
    requires 1 <= n <= 99
    ensures |PadStart2(IntToString(n))| == 2 && AllDigits(PadStart2(IntToString(n)))
    ensures DigitsValue(PadStart2(IntToString(n))) == n
  {
    var s := NatToString(n);
    NatToStringValue(n);
    if n < 10 {
      assert PadStart2(s) == ['0', s[0]];
      assert PadStart2(s)[..1] == ['0'];
    } else {
      assert n / 10 < 10;
      assert s == [DigitChar(n / 10), DigitChar(n % 10)];
    }
  }

  /** `formatDateString(date)`: unpadded year, month and day padded to two digits. */
  function FormatDateString(d: Date): string {
    IntToString(d.year) + "-" + PadStart2(IntToString(d.month)) + "-" + PadStart2(IntToString(d.day))
  }

  /** `epochDayToDateString`. */
  function EpochDayToDateString(z: int): string {
    FormatDateString(EpochDayToDate(z))
  }

  /** `str.split("-")`. */
  function Split(s: string): (parts: seq<string>)
    ensures |parts| >= 1
  {
    if s == [] then [""]
    else
      var rest := Split(s[1..]);
      if s[0] == '-' then [""] + rest else [[s[0]] + rest[0]] + rest[1..]
  }

  predicate NoDash(s: string) {
    forall i :: 0 <= i < |s| ==> s[i] != '-'
  }

  lemma {:induction false} SplitNoDash(a: string, t: string)
    requires NoDash(a)
    ensures Split(a + t) == [a + Split(t)[0]] + Split(t)[1..]
  {
    if a != [] {
      assert (a + t)[1..] == a[1..] + t;
      SplitNoDash(a[1..], t);
      assert [a[0]] + (a[1..] + Split(t)[0]) == a + Split(t)[0];
    } else {
      assert a + t == t;
      assert a + Split(t)[0] == Split(t)[0];
      assert Split(t) == [Split(t)[0]] + Split(t)[1..];
    }
  }

  lemma SplitDash(t: string)
    ensures Split("-" + t) == [""] + Split(t)
  {
    assert ("-" + t)[0] == '-' && ("-" + t)[1..] == t;
  }

  lemma SplitWhole(c: string)
    requires NoDash(c)
    ensures Split(c) == [c]
  {
    SplitNoDash(c, "");
    assert c + "" == c;
  }

  lemma SplitThree(a: string, b: string, c: string)
    requires NoDash(a) && NoDash(b) && NoDash(c)
    ensures Split(a + "-" + b + "-" + c) == [a, b, c]
  {
    var tc := "-" + c;
    SplitWhole(c);
    SplitDash(c);
    var tb := "-" + (b + tc);
    SplitNoDash(b, tc);
    assert b + "" == b;
    assert Split(b + tc) == [b, c];
    SplitDash(b + tc);
    SplitNoDash(a, tb);
    assert a + "" == a;
    assert a + "-" + b + "-" + c == a + tb;
  }

  /** `Number(str)` on the strings this model covers: the empty string is 0, a
      run of decimal digits is its value, anything else is NaN (`None`). */
  function ToNumber(s: string): (r: Option<int>)
    ensures r.Some? ==> r.value >= 0
    ensures s == [] ==> r == Some(0)
  {
    if AllDigits(s) then Some(DigitsValue(s)) else None
  }

  /** `Number(String(n))` is `n`. */
  lemma ToNumberOfString(n: nat)
    ensures ToNumber(NatToString(n)) == Some(n)
  {
    NatToStringValue(n);
  }

  /** Entry `i` of `parts.map(Number)`; `undefined` past the end is `None`. */
  function Field(parts: seq<string>, i: nat): Option<int> {
    if i < |parts| then ToNumber(parts[i]) else None
  }

  /** `n || fallback`: NaN and 0 are falsy. */
  function OrDefault(n: Option<int>, fallback: int): int {
    if n.None? || n.value == 0 then fallback else n.value
  }

  /** `parseDateString`: the first three `-`-separated fields, each defaulting
      (to 1970, 1 and 1) when missing, zero or not a number. */
  function ParseDateString(s: string): (d: Date)
    ensures d.year >= 1 && d.month >= 1 && d.day >= 1
  {
    var parts := Split(s);
    var field := (i: nat) => Field(parts, i);
    Date(OrDefault(field(0), 1970), OrDefault(field(1), 1), OrDefault(field(2), 1))
  }

  /** Field by field: a missing, zero or non-numeric field takes its default
      (1970, 1, 1); any other field is kept. */
  lemma ParseDateStringFields(s: string)
    ensures var d, parts := ParseDateString(s), Split(s);
            (Field(parts, 0).None? || Field(parts, 0) == Some(0) ==> d.year == 1970) &&
            (Field(parts, 1).None? || Field(parts, 1) == Some(0) ==> d.month == 1) &&
            (Field(parts, 2).None? || Field(parts, 2) == Some(0) ==> d.day == 1) &&
            (Field(parts, 0).Some? && Field(parts, 0).value != 0 ==> d.year == Field(parts, 0).value) &&
            (Field(parts, 1).Some? && Field(parts, 1).value != 0 ==> d.month == Field(parts, 1).value) &&
            (Field(parts, 2).Some? && Field(parts, 2).value != 0 ==> d.day == Field(parts, 2).value)
  {
  }

  /** `dateStringToEpochDay`. */
  function DateStringToEpochDay(s: string): int {
    var d := ParseDateString(s);
    CreateEpochDay(d.year, d.month, d.day)
  }

  /** Parsing a formatted date gives the date back, for positive years. */
  lemma ParseFormatted(d: Date)
    requires ValidDate(d) && d.year >= 1
    ensures ParseDateString(FormatDateString(d)) == d
  {
    var y := IntToString(d.year);
    var m := PadStart2(IntToString(d.month));
    var dd := PadStart2(IntToString(d.day));
    NatToStringValue(d.year);
    TwoDigitField(d.month);
    TwoDigitField(d.day);
    SplitThree(y, m, dd);
  }

  /** A date string printed from a day (year 100 or later) reads back as that day. */
  lemma DateStringRoundTrip(z: int)
    requires EpochDayToDate(z).year >= 100
    ensures DateStringToEpochDay(EpochDayToDateString(z)) == z
  {
    ParseFormatted(EpochDayToDate(z));
    ParsedDateDenotesDay(EpochDayToDateString(z), z);
  }

  /** A string that parses to the date of day `z` (year 100 or later) denotes `z`. */
  lemma ParsedDateDenotesDay(s: string, z: int)
    requires ParseDateString(s) == EpochDayToDate(z) && EpochDayToDate(z).year >= 100
    ensures DateStringToEpochDay(s) == z
  {
    var d := EpochDayToDate(z);
    CreateEpochDayInRange(d.year, d.month, d.day);
    EpochDayToDateDenotes(z);
  }

  /**
   * String first: a date string written by `formatDateString` (year 100 or
   * later) survives the trip to an epoch day and back unchanged.
   */
  lemma StringFirstRoundTrip(d: Date)
    requires ValidDate(d) && d.year >= 100
    ensures EpochDayToDateString(DateStringToEpochDay(FormatDateString(d))) == FormatDateString(d)
  {
    MakeDayRoundTrip(d);
    ParseFormatted(d);
    ParsedDateDenotesDay(FormatDateString(d), MakeDay(d.year, d.month - 1, d.day));
  }

  /** A string that is not a date falls back to 1970-01-01. */
  lemma ParseInvalid()
    ensures ParseDateString("invalid") == Date(1970, 1, 1)
  {
    assert !IsDigit('i');
    assert Split("invalid") == ["invalid"] by {
      SplitNoDash("invalid", "");
      assert "invalid" + "" == "invalid";
    }
  }

  /** `monthYearToDateString`: the 15th of the month, or "" when out of range. */
  function MonthYearToDateString(month: int, year: int): (s: string)
    ensures !(1 <= month <= 12 && 1900 <= year <= 2100) <==> s == ""
  {
    if month < 1 || month > 12 || year < 1900 || year > 2100 then ""
    else FormatDateString(EpochDayToDate(DateUTC(year, month - 1, 15)))
  }

  lemma MonthYearToDateStringFifteenth(month: int, year: int)
    requires 1 <= month <= 12 && 1900 <= year <= 2100
    ensures MonthYearToDateString(month, year) == FormatDateString(Date(year, month, 15))
  {
    var d := Date(year, month, 15);
    assert DateUTC(year, month - 1, 15) == MakeDay(year, month - 1, 15);
    assert EpochDayToDate(MakeDay(year, month - 1, 15)) == d by {
      MakeDayRoundTrip(d);
    }
  }

  datatype MonthYear = MonthYear(month: int, year: int)

  /** `birthDateStringToMonthYear`: month and year of a `YYYY-MM-DD`-shaped
      string, else January 1990. */
  function BirthDateStringToMonthYear(s: Option<string>): (r: MonthYear)
    ensures (s.None? || |s.value| != 10 || s.value[4] != '-' || s.value[7] != '-') ==> r == MonthYear(1, 1990)
    ensures s.Some? && |s.value| == 10 && s.value[4] == '-' && s.value[7] == '-' ==>
              r == MonthYear(ParseDateString(s.value).month, ParseDateString(s.value).year)
  {
    if s.None? || s.value == "" || |s.value| != 10 || s.value[4] != '-' || s.value[7] != '-' then
      MonthYear(1, 1990)
    else
      var d := ParseDateString(s.value);
      MonthYear(d.month, d.year)
  }

  /** A four-digit year prints as four characters. */
  lemma FourDigitYear(n: nat)
    requires 1000 <= n <= 9999
    ensures |NatToString(n)| == 4
  {
    assert |NatToString(n / 1000)| == 1;
    assert n / 100 >= 10 && n / 100 / 10 == n / 1000;
    assert |NatToString(n / 100)| == 2;
    assert n / 10 >= 10 && n / 10 / 10 == n / 100;
    assert |NatToString(n / 10)| == 3;
  }

  /** A birth date written by `formatDateString` with a four-digit year gives
      back its own month and year. */
  lemma BirthDateOfFormatted(d: Date)
    requires ValidDate(d) && 1000 <= d.year <= 9999
    ensures BirthDateStringToMonthYear(Some(FormatDateString(d))) == MonthYear(d.month, d.year)
  {
    var y := IntToString(d.year);
    var m := PadStart2(IntToString(d.month));
    var dd := PadStart2(IntToString(d.day));
    FourDigitYear(d.year);
    TwoDigitField(d.month);
    TwoDigitField(d.day);
    var f := FormatDateString(d);
    assert f == y + "-" + m + "-" + dd;
    assert |f| == 10 && f[4] == '-' && f[7] == '-';
    ParseFormatted(d);
  }

  /** Whole years from `birth` to `today`: the difference of the years, less one
      while (month, day) of the birthday is still ahead. */
  function AgeOn(birth: Date, today: Date): int {
    var reached := today.month > birth.month || (today.month == birth.month && today.day >= birth.day);
    today.year - birth.year - (if reached then 0 else 1)
  }

  lemma AgeNonNegative(birth: Date, today: Date)
    requires birth.year < today.year ||
      (birth.year == today.year && (birth.month < today.month || (birth.month == today.month && birth.day <= today.day)))
    ensures AgeOn(birth, today) >= 0
  {
  }

  /** `calculateAge(birthDate, todayEpochDay)`; an absent or empty birth date counts from 1990. */
  method CalculateAge(birthDate: Option<string>, todayEpochDay: int) returns (age: int)
    ensures birthDate.None? || birthDate.value == "" ==> age == EpochDayToDate(todayEpochDay).year - 1990
    ensures birthDate.Some? && birthDate.value != "" ==>
      age == AgeOn(ParseDateString(birthDate.value), EpochDayToDate(todayEpochDay))
  {
    var today := EpochDayToDate(todayEpochDay);
    if birthDate.None? || birthDate.value == "" {
      return today.year - 1990;
    }
    var birth := ParseDateString(birthDate.value);
    age := today.year - birth.year;
    // If the birthday has not occurred yet this year, subtract 1
    if today.month < birth.month || (today.month == birth.month && today.day < birth.day) {
      age := age - 1;
    }
  }
}
