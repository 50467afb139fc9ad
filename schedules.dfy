/** Recurrence rules (`Schedule` in frontend/app/lib/schedule.ts): how a rule is
    read from its serialized form, normalised and validated on construction,
    and which days it yields inside a window. Dates are epoch days. */
module Schedules {
  import opened Wrappers
  import opened Collections
  import opened Text
  import opened DateUtils

  datatype ScheduleType = Once | Daily | Weekly | Monthly | Yearly | Custom

  /** The string value of each `ScheduleType` member. */
  function TypeName(t: ScheduleType): string {
    match t
    case Once => "once"
    case Daily => "daily"
    case Weekly => "weekly"
    case Monthly => "monthly"
    case Yearly => "yearly"
    case Custom => "custom"
  }

  /** Distinct types have distinct names, all in lower case. */
  lemma TypeNameInjective(t: ScheduleType, u: ScheduleType)
    ensures IsLower(TypeName(t))
    ensures TypeName(t) == TypeName(u) ==> t == u
  {
    assert TypeName(t)[0] != TypeName(u)[0] || TypeName(t)[1] != TypeName(u)[1] || t == u;
  }

  /** A rule as handed to the constructor; day lists and interval are arbitrary numbers. */
  datatype ScheduleInput = ScheduleInput(
    kind: ScheduleType,
    daysOfMonth: Option<seq<real>>,
    daysOfWeek: Option<seq<real>>,
    interval: Option<real>,
    startDate: int,
    endDate: Option<int>)

  /** A constructed rule. */
  datatype Schedule = Schedule(
    kind: ScheduleType,
    daysOfMonth: Option<seq<int>>,
    daysOfWeek: Option<seq<int>>,
    interval: Option<int>,
    startDate: int,
    endDate: Option<int>)

  /** The serialized form; `kind` is the type string, possibly absent. */
  datatype SerializedSchedule = SerializedSchedule(
    kind: Option<string>,
    daysOfMonth: Option<seq<real>>,
    daysOfWeek: Option<seq<real>>,
    interval: Option<real>,
    startDate: int,
    endDate: Option<int>)

  // ---------------------------------------------------------------------------
  // Construction

  /** The floors of `xs` that lie in `lo..hi`, in input order. */
  function FloorsWithin(xs: seq<real>, lo: int, hi: int): (r: seq<int>)
    ensures forall y :: y in r <==> lo <= y <= hi && exists i :: 0 <= i < |xs| && xs[i].Floor == y
  {
    if xs == [] then []
    else
      var front := FloorsWithin(xs[..|xs| - 1], lo, hi);
      var f := xs[|xs| - 1].Floor;
      assert forall i :: 0 <= i < |xs| - 1 ==> xs[..|xs| - 1][i] == xs[i];
      if lo <= f <= hi then front + [f] else front
  }

  /** `Array.from(new Set(xs.map(Math.floor).filter(in lo..hi))).sort()`. */
  function NormaliseDays(xs: seq<real>, lo: int, hi: int): (r: seq<int>)
    ensures StrictlyAscending(r)
    ensures forall y :: y in r <==> lo <= y <= hi && exists i :: 0 <= i < |xs| && xs[i].Floor == y
    ensures NormalisedDays(r, lo, hi)
  {
    var r := SortedSet(FloorsWithin(xs, lo, hi));
    assert forall i :: 0 <= i < |r| ==> r[i] in r;
    r
  }

  /** The integers of a sequence as numbers. */
  function AsReals(s: seq<int>): (r: seq<real>)
    ensures |r| == |s|
    ensures forall i :: 0 <= i < |s| ==> r[i] == s[i] as real
  {
    seq(|s|, i requires 0 <= i < |s| => s[i] as real)
  }

  /** Normalising an already normalised list gives it back. */
  lemma NormaliseNormalised(s: seq<int>, lo: int, hi: int)
    requires NormalisedDays(s, lo, hi)
    ensures NormaliseDays(AsReals(s), lo, hi) == s
  {
    var xs := AsReals(s);
    forall y ensures y in NormaliseDays(xs, lo, hi) <==> y in s {
      if y in s {
        var i :| 0 <= i < |s| && s[i] == y;
        assert xs[i].Floor == y;
      }
    }
    AscendingUnique(NormaliseDays(xs, lo, hi), s);
  }

  /** A present, non-zero interval becomes `Math.max(1, Math.floor(interval))`. */
  function NormaliseInterval(interval: Option<real>): (r: Option<int>)
    ensures interval.None? <==> r.None?
    ensures interval.Some? && interval.value == 0.0 ==> r == Some(0)
    ensures interval.Some? && interval.value != 0.0 ==> r.value >= 1 && r.value >= interval.value.Floor
    ensures interval.Some? && interval.value >= 1.0 ==> r.value == interval.value.Floor
  {
    match interval
    case None => None
    case Some(v) => if v == 0.0 then Some(0) else Some(if v.Floor < 1 then 1 else v.Floor)
  }

  /** The constructor: the four checks in order, then the normalised fields. */
  function NewSchedule(input: ScheduleInput): (r: Result<Schedule>)
    ensures input.kind == Monthly && input.daysOfMonth.None? ==>
              r == Failure("Days of month are required for monthly schedule")
    ensures input.kind == Weekly && input.daysOfWeek.None? ==>
              r == Failure("Days of week are required for weekly schedule")
    ensures input.kind == Custom && (input.interval.None? || input.interval == Some(0.0)) ==>
              r == Failure("Interval is required for custom schedule")
    ensures !(input.kind == Monthly && input.daysOfMonth.None?) &&
            !(input.kind == Weekly && input.daysOfWeek.None?) &&
            !(input.kind == Custom && (input.interval.None? || input.interval == Some(0.0))) &&
            input.endDate.Some? && input.startDate > input.endDate.value ==>
              r == Failure("Start date must be before end date")
    ensures r.Success? <==>
              !(input.kind == Monthly && input.daysOfMonth.None?) &&
              !(input.kind == Weekly && input.daysOfWeek.None?) &&
              !(input.kind == Custom && (input.interval.None? || input.interval == Some(0.0))) &&
              !(input.endDate.Some? && input.startDate > input.endDate.value)
    ensures r.Success? ==> WellFormed(r.value)
    ensures r.Success? ==>
              r.value.kind == input.kind && r.value.startDate == input.startDate &&
              r.value.endDate == input.endDate && r.value.interval == NormaliseInterval(input.interval)
    ensures r.Success? ==>
              r.value.daysOfMonth == NormaliseList(input.daysOfMonth, 1, 31) &&
              r.value.daysOfWeek == NormaliseList(input.daysOfWeek, 0, 6)
  {
    if input.kind == Monthly && input.daysOfMonth.None? then
      Failure("Days of month are required for monthly schedule")
    else if input.kind == Weekly && input.daysOfWeek.None? then
      Failure("Days of week are required for weekly schedule")
    else if input.kind == Custom && (input.interval.None? || input.interval == Some(0.0)) then
      Failure("Interval is required for custom schedule")
    else if input.endDate.Some? && input.startDate > input.endDate.value then
      Failure("Start date must be before end date")
    else
      Success(Schedule(input.kind, NormaliseList(input.daysOfMonth, 1, 31), NormaliseList(input.daysOfWeek, 0, 6),
                       NormaliseInterval(input.interval), input.startDate, input.endDate))
  }

  /** An absent list stays absent; a present one is normalised. */
  function NormaliseList(xs: Option<seq<real>>, lo: int, hi: int): (r: Option<seq<int>>)
    ensures r.Some? <==> xs.Some?
    ensures r.Some? ==> NormalisedDays(r.value, lo, hi)
    ensures r.Some? ==> forall y :: y in r.value <==>
              lo <= y <= hi && exists i :: 0 <= i < |xs.value| && xs.value[i].Floor == y
  {
    match xs
    case None => None
    case Some(v) => Some(NormaliseDays(v, lo, hi))
  }

  /** Strictly ascending, every element within `lo..hi`. */
  predicate NormalisedDays(s: seq<int>, lo: int, hi: int) {
    StrictlyAscending(s) && forall i :: 0 <= i < |s| ==> lo <= s[i] <= hi
  }

  /** What every constructed rule satisfies. */
  predicate WellFormed(s: Schedule) {
    (s.kind == Monthly ==> s.daysOfMonth.Some?) &&
    (s.kind == Weekly ==> s.daysOfWeek.Some?) &&
    (s.kind == Custom ==> s.interval.Some? && s.interval.value >= 1) &&
    (s.interval.Some? ==> s.interval.value == 0 || s.interval.value >= 1) &&
    (s.daysOfMonth.Some? ==> NormalisedDays(s.daysOfMonth.value, 1, 31)) &&
    (s.daysOfWeek.Some? ==> NormalisedDays(s.daysOfWeek.value, 0, 6)) &&
    (s.endDate.Some? ==> s.startDate <= s.endDate.value)
  }

  // ---------------------------------------------------------------------------
  // Serialization

  /** The rule type read from a serialized type string: lower-cased, and
      Monthly when absent or not one of the six names. */
  function TypeFromString(name: Option<string>): (t: ScheduleType)
    ensures name.Some? ==> forall u :: ToLower(name.value) == TypeName(u) ==> t == u
    ensures t == Monthly || (name.Some? && ToLower(name.value) == TypeName(t))
  {
    var s := if name.Some? then ToLower(name.value) else "monthly";
    if s == "once" then Once
    else if s == "daily" then Daily
    else if s == "weekly" then Weekly
    else if s == "yearly" then Yearly
    else if s == "custom" then Custom
    else Monthly
  }

  /** `Schedule.fromSerialized`. */
  function FromSerialized(data: SerializedSchedule): Result<Schedule> {
    NewSchedule(ScheduleInput(TypeFromString(data.kind), data.daysOfMonth, data.daysOfWeek,
                              data.interval, data.startDate, data.endDate))
  }

  function MapAsReals(s: Option<seq<int>>): Option<seq<real>> {
    match s
    case None => None
    case Some(xs) => Some(AsReals(xs))
  }

  /** `Schedule.toSerialized`. */
  function ToSerialized(s: Schedule): (data: SerializedSchedule)
    ensures data.kind == Some(TypeName(s.kind))
    ensures data.startDate == s.startDate && data.endDate == s.endDate
  {
    SerializedSchedule(Some(TypeName(s.kind)), MapAsReals(s.daysOfMonth), MapAsReals(s.daysOfWeek),
                       if s.interval.Some? then Some(s.interval.value as real) else None,
                       s.startDate, s.endDate)
  }

  /** A type name survives lower-casing and lookup. */
  lemma TypeFromNameRoundTrip(t: ScheduleType)
    ensures TypeFromString(Some(TypeName(t))) == t
  {
    TypeNameInjective(t, t);
    ToLowerOfLower(TypeName(t));
  }

  /** Serializing a constructed rule and reading it back gives the same rule. */
  lemma SerializedRoundTrip(s: Schedule)
    requires WellFormed(s)
    ensures FromSerialized(ToSerialized(s)) == Success(s)
  {
    var data := ToSerialized(s);
    TypeFromNameRoundTrip(s.kind);
    if s.daysOfMonth.Some? {
      NormaliseNormalised(s.daysOfMonth.value, 1, 31);
    }
    if s.daysOfWeek.Some? {
      NormaliseNormalised(s.daysOfWeek.value, 0, 6);
    }
    if s.interval.Some? {
      assert (s.interval.value as real).Floor == s.interval.value;
    }
  }

  // ---------------------------------------------------------------------------
  // Days in a window

  /** `max(rule start, query start)`. */
  function EffectiveStart(s: Schedule, startDate: int): int {
    if s.startDate > startDate then s.startDate else startDate
  }

  /** `min(rule end, query end)`, the query end when the rule has none. */
  function EffectiveEnd(s: Schedule, endDate: int): int {
    if s.endDate.Some? && s.endDate.value < endDate then s.endDate.value else endDate
  }

  /** Day `d` is one the rule yields when scanning from `from`; only the
      custom rule depends on `from`, since it steps from the window start. */
  predicate Occurs(s: Schedule, from: int, d: int) {
    match s.kind
    case Once => d == s.startDate
    case Daily => true
    case Weekly => s.daysOfWeek.Some? && WeekDay(d) in s.daysOfWeek.value
    case Monthly => s.daysOfMonth.Some? && EpochDayToDate(d).day in s.daysOfMonth.value
    case Yearly => SameMonthDay(d, s.startDate)
    case Custom => s.interval.Some? && s.interval.value > 0 && Stepped(from, d, s.interval.value)
  }

  /** Every day of `lo..hi` that `keep` accepts, walking one day at a time. */
  method ScanDays(lo: int, hi: int, keep: int -> bool) returns (days: seq<int>)
    ensures StrictlyAscending(days)
    ensures forall d :: d in days <==> lo <= d <= hi && keep(d)
  {
    days := [];
    var current := lo;
    while current <= hi
      invariant current == lo || lo <= current <= hi + 1
      invariant StrictlyAscending(days)
      invariant forall i :: 0 <= i < |days| ==> days[i] < current
      invariant forall d :: d in days <==> lo <= d < current && keep(d)
      decreases hi - current
    {
      if keep(current) {
        days := days + [current];
      }
      current := current + 1;
    }
  }

  /** Day `d` is reached from `from` in whole steps of `step` days. */
  predicate Stepped(from: int, d: int, step: int)
    requires step >= 1
    decreases d - from
  {
    d == from || (d >= from + step && Stepped(from, d - step, step))
  }

  /** One more step from a stepped day is a stepped day. */
  lemma {:induction false} SteppedNext(from: int, d: int, step: int)
    requires step >= 1 && Stepped(from, d, step)
    ensures Stepped(from, d + step, step)
    decreases d - from
  {
    if d != from {
      SteppedNext(from, d - step, step);
    }
  }

  /** Stepped days lie at least a step apart. */
  lemma {:induction false} SteppedGap(from: int, d: int, e: int, step: int)
    requires step >= 1 && Stepped(from, d, step) && Stepped(from, e, step) && d < e
    ensures e >= d + step
    decreases e - from
  {
    if e != from && e - step < d {
      SteppedBelow(from, d, step);
      SteppedGap(from, e - step, d, step);
    }
  }

  /** A stepped day is not before the start. */
  lemma SteppedBelow(from: int, d: int, step: int)
    requires step >= 1 && Stepped(from, d, step)
    ensures d >= from
  {
  }

  /** `lo`, `lo + step`, `lo + 2 * step`, ... up to `hi`. */
  method StepDays(lo: int, hi: int, step: int) returns (days: seq<int>)
    requires step >= 1
    ensures StrictlyAscending(days)
    ensures forall d :: d in days <==> lo <= d <= hi && Stepped(lo, d, step)
  {
    days := [];
    var current := lo;
    while current <= hi
      invariant current >= lo && Stepped(lo, current, step)
      invariant StepsCollected(days, lo, hi, step, current)
      decreases hi - current
    {
      StepOnce(days, lo, hi, step, current);
      days := days + [current];
      current := current + step;
    }
  }

  /** The stepped days of `lo..hi` before `bound`, in ascending order. */
  ghost predicate StepsCollected(days: seq<int>, lo: int, hi: int, step: int, bound: int)
    requires step >= 1
  {
    StrictlyAscending(days) &&
    (forall i :: 0 <= i < |days| ==> days[i] < bound) &&
    (forall d :: d in days <==> lo <= d <= hi && d < bound && Stepped(lo, d, step))
  }

  /** One iteration of StepDays. */
  lemma StepOnce(days: seq<int>, lo: int, hi: int, step: int, current: int)
    requires step >= 1 && lo <= current <= hi && Stepped(lo, current, step)
    requires StepsCollected(days, lo, hi, step, current)
    ensures Stepped(lo, current + step, step)
    ensures StepsCollected(days + [current], lo, hi, step, current + step)
  {
    forall d | current < d < current + step && Stepped(lo, d, step)
      ensures false
    {
      SteppedGap(lo, current, d, step);
    }
    SteppedNext(lo, current, step);
    AppendAscending(days, current);
  }

  /** The yearly rule's reference date falls in the year it is built for,
      since a month index is at most 11 and a day at most 31. */
  lemma YearOfMakeDay(year: int, m: int, day: int)
    requires 0 <= m < 12 && 1 <= day <= 31
    ensures YearFromDay(MakeDay(year, m, day)) == year
  {
    MakeDayInYear(year, m, day);
    DaysBeforeMonthMonotone(year, m, 11);
    DayFromYearStep(year);
    YearFromDayUnique(year, MakeDay(year, m, day));
  }

  /** Days `a` and `b` share month and day of the month. */
  predicate SameMonthDay(a: int, b: int) {
    EpochDayToDate(a).month == EpochDayToDate(b).month && EpochDayToDate(a).day == EpochDayToDate(b).day
  }

  /** For each year of the window, `Date.UTC(year, refMonth, refDay)` when
      that date exists and lies in the window. */
  method YearlyDates(s: Schedule, lo: int, hi: int) returns (dates: seq<int>)
    requires s.kind == Yearly && lo <= hi
    ensures forall d :: d in dates ==> lo <= d <= hi && Occurs(s, lo, d)
    ensures OutsideTwoDigitYears(lo, hi) ==> StrictlyAscending(dates)
    ensures OutsideTwoDigitYears(lo, hi) ==> forall d :: lo <= d <= hi && Occurs(s, lo, d) ==> d in dates
  {
    var ref := EpochDayToDate(s.startDate);
    var refMonth, refDay := ref.month - 1, ref.day;
    var startYear := EpochDayToDate(lo).year;
    var endYear := EpochDayToDate(hi).year;
    YearsCollectedStart(s.startDate, lo, hi);
    ghost var good := OutsideTwoDigitYears(lo, hi);
    dates := [];
    var year := startYear;
    while year <= endYear
      invariant startYear <= year <= endYear + 1
      invariant MatchingWithin(dates, s.startDate, lo, hi)
      invariant good ==> YearsCollected(dates, s.startDate, lo, hi, year)
      decreases endYear - year
    {
      dates := YearlyVisit(s.startDate, refMonth, refDay, lo, hi, year, dates, good);
      year := year + 1;
    }
    if good {
      YearsCollectedEnd(dates, s.startDate, lo, hi);
    }
  }

  /** Every element lies in the window and has the reference month and day. */
  ghost predicate MatchingWithin(dates: seq<int>, ref: int, lo: int, hi: int) {
    forall d :: d in dates ==> lo <= d <= hi && SameMonthDay(d, ref)
  }

  /** One year of the yearly scan: keep `Date.UTC(year, refMonth, refDay)`
      when it has the reference month and day and lies in the window. */
  method YearlyVisit(ref: int, refMonth: int, refDay: int, lo: int, hi: int, year: int,
                     dates: seq<int>, ghost good: bool) returns (next: seq<int>)
    requires refMonth == EpochDayToDate(ref).month - 1 && refDay == EpochDayToDate(ref).day
    requires MatchingWithin(dates, ref, lo, hi)
    requires good ==> !(0 <= year <= 99) && YearsCollected(dates, ref, lo, hi, year)
    ensures MatchingWithin(next, ref, lo, hi)
    ensures good ==> YearsCollected(next, ref, lo, hi, year + 1)
  {
    var yearDate := DateUTC(year, refMonth, refDay);
    if good {
      YearlyCandidate(ref, refMonth, refDay, year, yearDate);
    }
    if SameMonthDay(yearDate, ref) && lo <= yearDate <= hi {
      next := dates + [yearDate];
      if good {
        YearlyKeep(ref, lo, hi, year, dates, yearDate);
      }
    } else {
      next := dates;
      if good {
        YearlySkip(ref, lo, hi, year, dates, yearDate);
      }
    }
  }

  /** The scan starts at the year of `lo`, before which no day of the window lies. */
  lemma YearsCollectedStart(ref: int, lo: int, hi: int)
    requires lo <= hi
    ensures EpochDayToDate(lo).year <= EpochDayToDate(hi).year
    ensures YearsCollected([], ref, lo, hi, EpochDayToDate(lo).year)
    ensures OutsideTwoDigitYears(lo, hi) <==> EpochDayToDate(lo).year > 99 || EpochDayToDate(hi).year < 0
  {
    EpochDayToDateYear(lo);
    EpochDayToDateYear(hi);
    YearFromDayMonotone(lo, hi);
    forall d | lo <= d ensures YearFromDay(d) >= YearFromDay(lo) {
      YearFromDayMonotone(lo, d);
    }
  }

  /** After the year of `hi`, every matching day of the window has been collected. */
  lemma YearsCollectedEnd(dates: seq<int>, ref: int, lo: int, hi: int)
    requires YearsCollected(dates, ref, lo, hi, EpochDayToDate(hi).year + 1)
    ensures forall d :: lo <= d <= hi && SameMonthDay(d, ref) ==> d in dates
  {
    EpochDayToDateYear(hi);
    forall d | lo <= d <= hi && SameMonthDay(d, ref) ensures d in dates {
      YearFromDayMonotone(d, hi);
    }
  }

  /** The yearly scan up to (not including) `year` is ordered, stays before
      `year`, and holds every matching day of the window before `year`. */
  ghost predicate YearsCollected(dates: seq<int>, ref: int, lo: int, hi: int, year: int) {
    StrictlyAscending(dates) &&
    (forall i :: 0 <= i < |dates| ==> YearFromDay(dates[i]) < year) &&
    (forall d :: lo <= d <= hi && SameMonthDay(d, ref) && YearFromDay(d) < year ==> d in dates)
  }

  /** A year whose candidate is kept. */
  lemma YearlyKeep(ref: int, lo: int, hi: int, year: int, dates: seq<int>, yearDate: int)
    requires YearFromDay(yearDate) == year
    requires forall d :: SameMonthDay(d, ref) && YearFromDay(d) == year ==> d == yearDate
    requires YearsCollected(dates, ref, lo, hi, year)
    ensures YearsCollected(dates + [yearDate], ref, lo, hi, year + 1)
  {
    YearlyAppend(dates, year, yearDate);
  }

  /** A year whose candidate is dropped has no matching day in the window. */
  lemma YearlySkip(ref: int, lo: int, hi: int, year: int, dates: seq<int>, yearDate: int)
    requires !(SameMonthDay(yearDate, ref) && lo <= yearDate <= hi)
    requires forall d :: SameMonthDay(d, ref) && YearFromDay(d) == year ==> d == yearDate
    requires YearsCollected(dates, ref, lo, hi, year)
    ensures YearsCollected(dates, ref, lo, hi, year + 1)
  {
  }

  /** The candidate for `year` is in `year`, and it is the only day of that
      year with the reference month and day. */
  lemma YearlyCandidate(ref: int, refMonth: int, refDay: int, year: int, yearDate: int)
    requires refMonth == EpochDayToDate(ref).month - 1 && refDay == EpochDayToDate(ref).day
    requires !(0 <= year <= 99) && yearDate == DateUTC(year, refMonth, refDay)
    ensures YearFromDay(yearDate) == year
    ensures forall d :: SameMonthDay(d, ref) && YearFromDay(d) == year ==> d == yearDate
  {
    assert yearDate == MakeDay(year, refMonth, refDay);
    assert 0 <= refMonth < 12 && 1 <= refDay <= 31;
    YearOfMakeDay(year, refMonth, refDay);
    forall d | SameMonthDay(d, ref) && YearFromDay(d) == year ensures d == yearDate {
      SameFieldsSameDay(ref, refMonth, refDay, year, d);
    }
  }

  /** A day of `year` with the reference month and day is MakeDay of those fields. */
  lemma SameFieldsSameDay(ref: int, refMonth: int, refDay: int, year: int, d: int)
    requires refMonth == EpochDayToDate(ref).month - 1 && refDay == EpochDayToDate(ref).day
    requires SameMonthDay(d, ref) && YearFromDay(d) == year
    ensures d == MakeDay(year, refMonth, refDay)
  {
    EpochDayToDateYear(d);
    EpochDayToDateDenotes(d);
  }

  /** Appending a day of `year` to days of earlier years keeps them ordered. */
  lemma YearlyAppend(dates: seq<int>, year: int, yearDate: int)
    requires StrictlyAscending(dates)
    requires forall i :: 0 <= i < |dates| ==> YearFromDay(dates[i]) < year
    requires YearFromDay(yearDate) == year
    ensures StrictlyAscending(dates + [yearDate])
    ensures forall i :: 0 <= i < |dates + [yearDate]| ==> YearFromDay((dates + [yearDate])[i]) < year + 1
  {
    forall i | 0 <= i < |dates| ensures dates[i] < yearDate {
      if dates[i] >= yearDate {
        YearFromDayMonotone(yearDate, dates[i]);
      }
    }
    AppendAscending(dates, yearDate);
  }

  /** `getDatesInRange`: the rule's days in the window clamped to the rule's own
      start and end, in ascending order. Yearly rules are ordered and complete
      only away from the years 0..99 that `Date.UTC` reads as 1900..1999. */
  method GetDatesInRange(s: Schedule, startDate: int, endDate: int) returns (dates: seq<int>)
    ensures forall d :: d in dates ==>
              EffectiveStart(s, startDate) <= d <= EffectiveEnd(s, endDate) &&
              Occurs(s, EffectiveStart(s, startDate), d)
    ensures s.kind != Yearly || OutsideTwoDigitYears(EffectiveStart(s, startDate), EffectiveEnd(s, endDate)) ==>
              StrictlyAscending(dates)
    ensures s.kind != Yearly || OutsideTwoDigitYears(EffectiveStart(s, startDate), EffectiveEnd(s, endDate)) ==>
              forall d :: (EffectiveStart(s, startDate) <= d <= EffectiveEnd(s, endDate) &&
                           Occurs(s, EffectiveStart(s, startDate), d)) ==> d in dates
  {
    var lo := EffectiveStart(s, startDate);
    var hi := EffectiveEnd(s, endDate);
    if lo > hi {
      return [];
    }
    match s.kind {
      case Once =>
        dates := if lo <= s.startDate <= hi then [s.startDate] else [];
      case Daily =>
        dates := ScanDays(lo, hi, d => true);
      case Weekly =>
        if s.daysOfWeek.None? || |s.daysOfWeek.value| == 0 {
          dates := [];
        } else {
          var dow := s.daysOfWeek.value;
          dates := ScanDays(lo, hi, d => WeekDay(d) in dow);
        }
      case Monthly =>
        if s.daysOfMonth.None? || |s.daysOfMonth.value| == 0 {
          dates := [];
        } else {
          var dom := s.daysOfMonth.value;
          dates := ScanDays(lo, hi, d => EpochDayToDate(d).day in dom);
        }
      case Yearly =>
        dates := YearlyDates(s, lo, hi);
      case Custom =>
        if s.interval.None? || s.interval.value <= 0 {
          dates := [];
        } else {
          dates := StepDays(lo, hi, s.interval.value);
        }
    }
  }
}
