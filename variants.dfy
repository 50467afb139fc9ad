/** What each entity variant contributes to a simulation: the days on which
    it wants to be simulated, and the transactions it emits on such a day. */
module Variants {
  import opened Wrappers
  import opened Collections
  import opened DateUtils
  import opened Schedules
  import opened Values
  import opened Entities

  // ---------------------------------------------------------------------------
  // Ledger lookups

  /** Index of the first entry dated `day` (`ledger.find(e => e.day === day)`),
      or the ledger's length when there is none. */
  function FirstOnDay(ledger: seq<LedgerEntry>, day: int): (i: nat)
    ensures i <= |ledger|
    ensures forall j :: 0 <= j < i ==> ledger[j].day != day
    ensures i < |ledger| ==> ledger[i].day == day
  {
    if ledger == [] || ledger[0].day == day then 0 else 1 + FirstOnDay(ledger[1..], day)
  }

  function FindOnDay(ledger: seq<LedgerEntry>, day: int): Option<LedgerEntry> {
    var i := FirstOnDay(ledger, day);
    if i < |ledger| then Some(ledger[i]) else None
  }

  /** Some entry is dated `day`. */
  predicate InLedger(ledger: seq<LedgerEntry>, day: int) {
    exists i :: 0 <= i < |ledger| && ledger[i].day == day
  }

  /** Index of the last entry, in ledger order, dated on or before `day`
      (`[...ledger].reverse().find(e => e.day <= day)`), or -1. */
  function LastOnOrBefore(ledger: seq<LedgerEntry>, day: int): (i: int)
    ensures -1 <= i < |ledger|
    ensures 0 <= i ==> ledger[i].day <= day
    ensures forall j :: i < j < |ledger| ==> ledger[j].day > day
  {
    if ledger == [] then -1
    else if ledger[|ledger| - 1].day <= day then |ledger| - 1
    else LastOnOrBefore(ledger[..|ledger| - 1], day)
  }

  // ---------------------------------------------------------------------------
  // Simulation days

  /** `Math.max(startDay, this.getEarliestDay())`. */
  function EffectiveStartDay(e: Entity, startDay: int): (lo: int)
    ensures lo >= startDay && lo >= EarliestDay(e)
    ensures lo == startDay || lo == EarliestDay(e)
  {
    if EarliestDay(e) > startDay then EarliestDay(e) else startDay
  }

  /** Day `d` is one the rule yields inside `[lo, hi]` clamped to its own bounds. */
  predicate ScheduledWithin(s: Schedule, lo: int, hi: int, d: int) {
    EffectiveStart(s, lo) <= d <= EffectiveEnd(s, hi) && Occurs(s, EffectiveStart(s, lo), d)
  }

  /** Day `d` is one the entity asks to be simulated on within `[startDay, endDay]`. */
  predicate SimulationDay(e: Entity, startDay: int, endDay: int, d: int) {
    var lo := EffectiveStartDay(e, startDay);
    lo <= d <= endDay &&
    match e.details
    case AccountDetails(_) => InLedger(e.ledger, d) || IsMonthEnd(d)
    case PossessionDetails(_) => InLedger(e.ledger, d) || IsMonthEnd(d)
    case HoldingDetails(_, _) => InLedger(e.ledger, d) || IsMonthEnd(d)
    case DebtDetails(_, _, s, _) => InLedger(e.ledger, d) || IsMonthEnd(d) || ScheduledWithin(s, lo, endDay, d)
    case IncomeDetails(_, s, _) => ScheduledWithin(s, lo, endDay, d)
    case ExpenseDetails(_, s, _) => ScheduledWithin(s, lo, endDay, d)
    case FallbackDetails => false
  }

  /** The loop over the ledger that collects the entry days inside `[lo, hi]`. */
  method LedgerDaysWithin(ledger: seq<LedgerEntry>, lo: int, hi: int) returns (days: seq<int>)
    ensures forall d :: d in days <==> lo <= d <= hi && InLedger(ledger, d)
  {
    days := [];
    for i := 0 to |ledger|
      invariant forall d :: d in days <==> lo <= d <= hi && exists j :: 0 <= j < i && ledger[j].day == d
    {
      if lo <= ledger[i].day <= hi {
        days := days + [ledger[i].day];
      }
    }
  }

  /** A window whose years are all outside 0..99 stays so when narrowed. */
  lemma OutsideNarrower(lo: int, hi: int, a: int, b: int)
    requires OutsideTwoDigitYears(lo, hi)
    requires lo <= a && b <= hi
    ensures OutsideTwoDigitYears(a, b)
  {
    YearFromDayMonotone(lo, a);
    YearFromDayMonotone(b, hi);
  }

  /** Inside such a window, `dateToEpochDay(epochDayToDate(x))` is `x`. */
  lemma RoundTripWithin(lo: int, hi: int, x: int)
    requires OutsideTwoDigitYears(lo, hi)
    requires lo <= x <= hi
    ensures DateToEpochDay(EpochDayToDate(x)) == x
  {
    YearFromDayMonotone(lo, x);
    YearFromDayMonotone(x, hi);
    EpochDayToDateYear(x);
    DateToEpochDayRoundTrip(x);
  }

  /** The rule's dates in `[lo, hi]`, each passed through
      `dateToEpochDay(epochDayToDate(.))` as the variants do. */
  method ScheduleDays(s: Schedule, lo: int, hi: int) returns (days: seq<int>)
    ensures OutsideTwoDigitYears(lo, hi) ==> forall d :: d in days <==> ScheduledWithin(s, lo, hi, d)
  {
    var dates := GetDatesInRange(s, lo, hi);
    days := seq(|dates|, j requires 0 <= j < |dates| => DateToEpochDay(EpochDayToDate(dates[j])));
    if OutsideTwoDigitYears(lo, hi) {
      var a, b := EffectiveStart(s, lo), EffectiveEnd(s, hi);
      OutsideNarrower(lo, hi, a, b);
      forall j | 0 <= j < |dates| ensures days[j] == dates[j] {
        assert dates[j] in dates;
        RoundTripWithin(lo, hi, dates[j]);
      }
      assert days == dates;
    }
  }

  /** `getSimulationDays(startDay, endDay)` of every variant: ledger days and
      month ends for balances and holdings, those and the payment days for a
      debt, the schedule's days for income and expense, nothing for the
      fallback; deduplicated and ascending. The sets are exact outside the
      years 0..99 that `Date.UTC` moves into the twentieth century. */
  method GetSimulationDays(e: Entity, startDay: int, endDay: int) returns (days: seq<int>)
    ensures StrictlyAscending(days)
    ensures EffectiveStartDay(e, startDay) > endDay ==> days == []
    ensures e.details.FallbackDetails? ==> days == []
    ensures OutsideTwoDigitYears(EffectiveStartDay(e, startDay), endDay) ==>
              forall d :: d in days <==> SimulationDay(e, startDay, endDay, d)
  {
    var lo := EffectiveStartDay(e, startDay);
    if e.details.FallbackDetails? || lo > endDay {
      return [];
    }
    var collected: seq<int> := [];
    if !(e.details.IncomeDetails? || e.details.ExpenseDetails?) {
      var ledgerDays := LedgerDaysWithin(e.ledger, lo, endDay);
      var monthEnds := GetLastDaysOfMonthsInRange(lo, endDay);
      collected := ledgerDays + monthEnds;
    }
    if e.details.DebtDetails? || e.details.IncomeDetails? || e.details.ExpenseDetails? {
      var s := if e.details.DebtDetails? then e.details.paymentSchedule else e.details.schedule;
      var scheduled := ScheduleDays(s, lo, endDay);
      collected := collected + scheduled;
    }
    days := SortedSet(collected);
    if OutsideTwoDigitYears(lo, endDay) {
      forall d
        ensures d in days <==> SimulationDay(e, startDay, endDay, d)
      {
        SimulationDayCases(e, startDay, endDay, d);
      }
    }
  }

  /** `SimulationDay` spelled out as the union the method collects. */
  lemma SimulationDayCases(e: Entity, startDay: int, endDay: int, d: int)
    requires !e.details.FallbackDetails?
    ensures var lo := EffectiveStartDay(e, startDay);
            SimulationDay(e, startDay, endDay, d) <==>
              (!(e.details.IncomeDetails? || e.details.ExpenseDetails?) &&
               lo <= d <= endDay && (InLedger(e.ledger, d) || IsMonthEnd(d))) ||
              ((e.details.DebtDetails? || e.details.IncomeDetails? || e.details.ExpenseDetails?) &&
               ScheduledWithin(if e.details.DebtDetails? then e.details.paymentSchedule else e.details.schedule,
                               lo, endDay, d))
  {
  }

  // ---------------------------------------------------------------------------
  // Transactions of one day

  /** `new Transaction({ day, targetEntityId: id, ...entry figures, isCorrection: true })`. */
  function Correction(id: string, day: int, entry: LedgerEntry): (t: Transaction)
    ensures t.day == day && t.targetEntityId == id && t.isCorrection
    ensures t.amount == entry.amount && t.shareQuantity == entry.shareQuantity && t.sharePrice == entry.sharePrice
  {
    NewTransaction(TransactionInput(day, id, entry.amount, entry.shareQuantity, entry.sharePrice, Some(true)))
  }

  /** `snapshots[snapshots.length - 1]?.value ?? 0`. */
  function LastValue(snapshots: seq<Snapshot>): real {
    if |snapshots| > 0 then snapshots[|snapshots| - 1].Value() else 0.0
  }

  /** Account and possession: a ledger entry wins, else monthly growth of the
      current value. */
  function GrowthDay(e: Entity, growthRate: real, day: int, snapshots: seq<Snapshot>): (txs: seq<Transaction>)
    ensures |txs| <= 1 && forall i :: 0 <= i < |txs| ==> txs[i].day == day
  {
    match FindOnDay(e.ledger, day)
    case Some(entry) => [Correction(e.id, day, entry)]
    case None =>
      var currentValue := LastValue(snapshots);
      if growthRate == 0.0 || currentValue == 0.0 then []
      else
        var growthAmount := currentValue * (growthRate / 12.0);
        if growthAmount == 0.0 then [] else [Delta(day, e.id, growthAmount)]
  }

  /** Holding: a ledger entry wins, else the share price grows by a month. */
  function HoldingDay(e: Entity, growthRate: real, day: int, snapshots: seq<Snapshot>): (txs: seq<Transaction>)
    ensures |txs| <= 1 && forall i :: 0 <= i < |txs| ==> txs[i].day == day
  {
    match FindOnDay(e.ledger, day)
    case Some(entry) => [Correction(e.id, day, entry)]
    case None =>
      if growthRate == 0.0 || |snapshots| == 0 || snapshots[|snapshots| - 1].sharePrice <= 0.0 then []
      else
        var last := snapshots[|snapshots| - 1];
        [NewTransaction(TransactionInput(day, e.id, None, None,
                                         Some(last.sharePrice + last.sharePrice * (growthRate / 12.0)), Some(true)))]
  }

  /** The debt's month-end test as written: the day of the month equals the day
      of `Date.UTC(year, month + 1, 0)`. */
  predicate LastDayOfMonthAsWritten(day: int) {
    var d := EpochDayToDate(day);
    d.day == EpochDayToDate(DateUTC(d.year, d.month - 1 + 1, 0)).day
  }

  /** A day whose year is one `Date.UTC` rewrites. */
  predicate TwoDigitYear(day: int) {
    0 <= EpochDayToDate(day).year <= 99
  }

  /** Away from the years 0..99 the month-end test means what it says. */
  lemma LastDayOfMonthMeansMonthEnd(day: int)
    requires !TwoDigitYear(day)
    ensures LastDayOfMonthAsWritten(day) <==> IsMonthEnd(day)
  {
    AsWrittenComparesWithLast(day);
    LastDateOfOwnMonth(day);
  }

  /** Away from the years 0..99, the test compares the day's date with the date
      of its month's last day. */
  lemma AsWrittenComparesWithLast(day: int)
    requires !TwoDigitYear(day)
    ensures LastDayOfMonthAsWritten(day) <==>
            EpochDayToDate(day).day == EpochDayToDate(FirstDayOfMonthIndex(MonthIndex(day) + 1) - 1).day
  {
    MonthLastByDateUTC(day);
  }

  /** Away from the years 0..99, `Date.UTC(year, month + 1, 0)` is the last
      day of the day's month. */
  lemma MonthLastByDateUTC(day: int)
    requires !TwoDigitYear(day)
    ensures DateUTC(EpochDayToDate(day).year, EpochDayToDate(day).month - 1 + 1, 0) ==
            FirstDayOfMonthIndex(MonthIndex(day) + 1) - 1
  {
    MakeDayByIndex(EpochDayToDate(day).year, EpochDayToDate(day).month, 0);
  }

  /** Debt: a ledger entry wins; a settled debt stops; otherwise the scheduled
      payment, then month-end interest on the balance before the payment. */
  function DebtDay(e: Entity, interestRate: real, paymentAmount: real, sourceId: string,
                   day: int, snapshots: seq<Snapshot>, paymentDay: bool, monthEnd: bool)
    : (txs: seq<Transaction>)
    ensures |txs| <= 3 && forall i :: 0 <= i < |txs| ==> txs[i].day == day
  {
    match FindOnDay(e.ledger, day)
    case Some(entry) => [Correction(e.id, day, entry)]
    case None =>
      var balance := LastValue(snapshots);
      if |snapshots| > 0 && balance >= 0.0 then []
      else
        Payment(e.id, sourceId, paymentAmount, day, paymentDay) +
        Interest(e.id, interestRate, balance, day, monthEnd)
  }

  /** The scheduled payment: debit the source, then credit the debt. */
  function Payment(id: string, sourceId: string, paymentAmount: real, day: int, paymentDay: bool): (txs: seq<Transaction>)
    ensures |txs| <= 2 && forall i :: 0 <= i < |txs| ==> txs[i].day == day && !txs[i].isCorrection
  {
    if paymentDay && paymentAmount > 0.0
    then [Delta(day, sourceId, -paymentAmount), Delta(day, id, paymentAmount)]
    else []
  }

  /** Interest on a negative balance, `-|balance| * rate / 12`, charged when
      `monthEnd` holds. */
  function Interest(id: string, interestRate: real, balance: real, day: int, monthEnd: bool): (txs: seq<Transaction>)
    ensures |txs| <= 1 && forall i :: 0 <= i < |txs| ==> txs[i].day == day && !txs[i].isCorrection
  {
    var magnitude := if balance < 0.0 then -balance else balance;
    if monthEnd && interestRate != 0.0 && balance < 0.0
    then [Delta(day, id, -(magnitude * (interestRate / 12.0)))]
    else []
  }

  /** Interest is charged on a month end, with a non-zero rate and a negative
      balance, and deepens the balance by a month's rate. */
  lemma InterestDeepensDebt(id: string, interestRate: real, balance: real, day: int, monthEnd: bool)
    ensures Interest(id, interestRate, balance, day, monthEnd) ==
              if monthEnd && interestRate != 0.0 && balance < 0.0
              then [Delta(day, id, balance * (interestRate / 12.0))]
              else []
  {
    if monthEnd && interestRate != 0.0 && balance < 0.0 {
      assert -((-balance) * (interestRate / 12.0)) == balance * (interestRate / 12.0);
    }
  }

  /** `Math.pow`, a parameter of the model: only `pow(1, x) = 1` and
      `pow(b, 0) = 1` are relied on. */
  ghost predicate PowLaws(pow: (real, real) -> real) {
    (forall x :: pow(1.0, x) == 1.0) && (forall b :: pow(b, 0.0) == 1.0)
  }

  /** `base * (1 + growthRate) ^ ((day - from) / 365.25)`. */
  function GrownAmount(pow: (real, real) -> real, base: real, growthRate: real, from: int, day: int): real {
    base * pow(1.0 + growthRate, (day - from) as real / 365.25)
  }

  /** Income: the latest entry on or before the day sets the base, grown since
      that entry's day, credited to the target. */
  function IncomeDay(e: Entity, growthRate: real, targetId: string, day: int,
                     pow: (real, real) -> real): (txs: seq<Transaction>)
    ensures |txs| <= 1 && forall i :: 0 <= i < |txs| ==> txs[i].day == day
  {
    var i := LastOnOrBefore(e.ledger, day);
    if i < 0 then []
    else
      var entry := e.ledger[i];
      var base := entry.amount.GetOr(0.0);
      if base == 0.0 then []
      else [Delta(day, targetId, GrownAmount(pow, base, growthRate, entry.day, day))]
  }

  /** Expense: the same amount as an income, debited from the source. */
  function ExpenseDay(e: Entity, growthRate: real, sourceId: string, day: int,
                      pow: (real, real) -> real): (txs: seq<Transaction>)
    ensures |txs| <= 1 && forall i :: 0 <= i < |txs| ==> txs[i].day == day
  {
    var i := LastOnOrBefore(e.ledger, day);
    if i < 0 then []
    else
      var entry := e.ledger[i];
      var base := entry.amount.GetOr(0.0);
      if base == 0.0 then []
      else [Delta(day, sourceId, -GrownAmount(pow, base, growthRate, entry.day, day))]
  }

  /** `simulateDay(day, snapshots)` of every variant, given the debt's two
      calendar tests: whether the day is one of its payment days and whether
      it is the last day of its month. Every transaction is dated on `day`,
      which is what keeps the simulation's replay in order. */
  function DayTransactions(e: Entity, day: int, snapshots: seq<Snapshot>,
                           pow: (real, real) -> real, paymentDay: bool, monthEnd: bool)
    : (txs: seq<Transaction>)
    ensures forall i :: 0 <= i < |txs| ==> txs[i].day == day
    ensures |txs| <= 3
  {
    match e.details
    case AccountDetails(g) => GrowthDay(e, g, day, snapshots)
    case PossessionDetails(g) => GrowthDay(e, g, day, snapshots)
    case HoldingDetails(_, g) => HoldingDay(e, g, day, snapshots)
    case DebtDetails(r, p, _, src) => DebtDay(e, r, p, src, day, snapshots, paymentDay, monthEnd)
    case IncomeDetails(g, _, target) => IncomeDay(e, g, target, day, pow)
    case ExpenseDetails(g, _, src) => ExpenseDay(e, g, src, day, pow)
    case FallbackDetails => []
  }

  /** The rule yields `day` when asked for the one-day window `[day, day]`. */
  predicate PaymentDay(s: Schedule, day: int) {
    s.startDate <= day && (s.endDate.None? || day <= s.endDate.value) && Occurs(s, day, day)
  }

  /** The debt's test: the first date of the one-day window converts back to
      `day`. It never claims a day the rule does not yield, and is exact away
      from the years 0..99. */
  method IsPaymentDay(s: Schedule, day: int) returns (b: bool)
    ensures b ==> PaymentDay(s, day)
    ensures !TwoDigitYear(day) ==> (b <==> PaymentDay(s, day))
  {
    var dates := GetDatesInRange(s, day, day);
    b := |dates| > 0 && DateToEpochDay(EpochDayToDate(dates[0])) == day;
    if |dates| > 0 {
      assert dates[0] in dates;
    }
    if !TwoDigitYear(day) {
      EpochDayToDateYear(day);
      DateToEpochDayRoundTrip(day);
      if PaymentDay(s, day) {
        assert EffectiveStart(s, day) == day && EffectiveEnd(s, day) == day;
        assert day in dates;
      }
    }
  }

  /** The debt's payment day flag for `e` (false for the other variants). */
  predicate ScheduledPayment(e: Entity, day: int) {
    e.details.DebtDetails? && PaymentDay(e.details.paymentSchedule, day)
  }

  /** `entity.simulateDay(day, snapshots)`: the transactions of `DayTransactions`,
      with the debt's payment test evaluated through the schedule and its
      month-end test through `Date.UTC`. */
  method SimulateDay(e: Entity, day: int, snapshots: seq<Snapshot>, pow: (real, real) -> real)
    returns (txs: seq<Transaction>)
    ensures forall i :: 0 <= i < |txs| ==> txs[i].day == day
    ensures txs == DayTransactions(e, day, snapshots, pow, true, LastDayOfMonthAsWritten(day)) ||
            txs == DayTransactions(e, day, snapshots, pow, false, LastDayOfMonthAsWritten(day))
    ensures !TwoDigitYear(day) ==>
              txs == DayTransactions(e, day, snapshots, pow, ScheduledPayment(e, day), IsMonthEnd(day))
  {
    var paid := false;
    if e.details.DebtDetails? {
      paid := IsPaymentDay(e.details.paymentSchedule, day);
    }
    var monthEnd := LastDayOfMonthAsWritten(day);
    if !TwoDigitYear(day) {
      LastDayOfMonthMeansMonthEnd(day);
    }
    txs := DayTransactions(e, day, snapshots, pow, paid, monthEnd);
  }

  // ---------------------------------------------------------------------------
  // Properties of one day

  /** A balance, holding or debt with a ledger entry on the day emits exactly one
      correction carrying that entry's figures, whatever else holds. */
  lemma LedgerEntryWins(e: Entity, day: int, snapshots: seq<Snapshot>, pow: (real, real) -> real,
                        paymentDay: bool, monthEnd: bool)
    requires !(e.details.IncomeDetails? || e.details.ExpenseDetails? || e.details.FallbackDetails?)
    requires InLedger(e.ledger, day)
    ensures FindOnDay(e.ledger, day).Some?
    ensures DayTransactions(e, day, snapshots, pow, paymentDay, monthEnd) ==
              [Correction(e.id, day, FindOnDay(e.ledger, day).value)]
  {
    var j :| 0 <= j < |e.ledger| && e.ledger[j].day == day;
    assert FirstOnDay(e.ledger, day) <= j;
  }

  /** An account or possession without a ledger entry on the day: nothing when
      the rate or the current value is 0, otherwise one non-zero delta of a
      month's growth, `value * rate / 12`, to itself. */
  lemma BalanceGrowth(e: Entity, day: int, snapshots: seq<Snapshot>, pow: (real, real) -> real,
                        paymentDay: bool, monthEnd: bool)
    requires e.details.AccountDetails? || e.details.PossessionDetails?
    requires !InLedger(e.ledger, day)
    ensures var txs := DayTransactions(e, day, snapshots, pow, paymentDay, monthEnd);
            if e.details.growthRate == 0.0 || LastValue(snapshots) == 0.0 then txs == []
            else |txs| == 1 && txs[0].targetEntityId == e.id && !txs[0].isCorrection &&
                 txs[0].shareQuantity.None? && txs[0].sharePrice.None? && txs[0].amount.Some? &&
                 txs[0].amount.value == LastValue(snapshots) * (e.details.growthRate / 12.0) &&
                 txs[0].amount.value != 0.0
  {
    assert FirstOnDay(e.ledger, day) == |e.ledger|;
    var g := e.details.growthRate;
    assert DayTransactions(e, day, snapshots, pow, paymentDay, monthEnd) == GrowthDay(e, g, day, snapshots);
    if g != 0.0 && LastValue(snapshots) != 0.0 {
      assert LastValue(snapshots) * (g / 12.0) != 0.0;
    }
  }

  /** A holding without a ledger entry on the day: nothing without a prior
      snapshot, with a zero rate or a non-positive price; otherwise a correction
      that sets only the share price, to the last price grown by a month. */
  lemma HoldingGrowth(e: Entity, day: int, snapshots: seq<Snapshot>, pow: (real, real) -> real,
                        paymentDay: bool, monthEnd: bool)
    requires e.details.HoldingDetails?
    requires !InLedger(e.ledger, day)
    ensures var txs := DayTransactions(e, day, snapshots, pow, paymentDay, monthEnd);
            if e.details.growthRate == 0.0 || |snapshots| == 0 || snapshots[|snapshots| - 1].sharePrice <= 0.0
            then txs == []
            else |txs| == 1 && txs[0].isCorrection && txs[0].targetEntityId == e.id &&
                 txs[0].amount.None? && txs[0].shareQuantity.None? &&
                 txs[0].sharePrice == Some(snapshots[|snapshots| - 1].sharePrice * (1.0 + e.details.growthRate / 12.0))
  {
    assert FirstOnDay(e.ledger, day) == |e.ledger|;
  }

  /** Once a debt has a snapshot worth 0 or more it is settled: without a ledger
      entry on the day nothing is emitted. */
  lemma DebtSettledStops(e: Entity, day: int, snapshots: seq<Snapshot>, pow: (real, real) -> real,
                        paymentDay: bool, monthEnd: bool)
    requires e.details.DebtDetails?
    requires !InLedger(e.ledger, day)
    requires |snapshots| > 0 && snapshots[|snapshots| - 1].Value() >= 0.0
    ensures DayTransactions(e, day, snapshots, pow, paymentDay, monthEnd) == []
  {
    assert FirstOnDay(e.ledger, day) == |e.ledger|;
  }

  /** An open debt without a ledger entry on the day emits the scheduled payment
      followed by the month-end interest, and no correction. */
  lemma DebtPaymentThenInterest(e: Entity, day: int, snapshots: seq<Snapshot>, pow: (real, real) -> real,
                        paymentDay: bool, monthEnd: bool)
    requires e.details.DebtDetails?
    requires !InLedger(e.ledger, day)
    requires !(|snapshots| > 0 && LastValue(snapshots) >= 0.0)
    ensures var txs := DayTransactions(e, day, snapshots, pow, paymentDay, monthEnd);
            txs == Payment(e.id, e.details.paymentSourceEntityId, e.details.paymentAmount, day, paymentDay) +
                   Interest(e.id, e.details.interestRate, LastValue(snapshots), day, monthEnd) &&
            forall i :: 0 <= i < |txs| ==> !txs[i].isCorrection
  {
    var d := e.details;
    assert DayTransactions(e, day, snapshots, pow, paymentDay, monthEnd) ==
           DebtDay(e, d.interestRate, d.paymentAmount, d.paymentSourceEntityId, day, snapshots, paymentDay, monthEnd);
    DebtDayOpen(e, d.interestRate, d.paymentAmount, d.paymentSourceEntityId, day, snapshots, paymentDay, monthEnd);
    var pay: seq<Transaction>, charge: seq<Transaction> := Payment(e.id, d.paymentSourceEntityId, d.paymentAmount, day, paymentDay),
                                                         Interest(e.id, d.interestRate, LastValue(snapshots), day, monthEnd);
    forall i | |pay| <= i < |pay + charge|
      ensures !(pay + charge)[i].isCorrection
    {
      assert (pay + charge)[i] == charge[i - |pay|];
    }
  }

  /** `DebtDay` of an open debt without a ledger entry on the day. */
  lemma DebtDayOpen(e: Entity, interestRate: real, paymentAmount: real, sourceId: string,
                    day: int, snapshots: seq<Snapshot>, paymentDay: bool, monthEnd: bool)
    requires !InLedger(e.ledger, day)
    requires !(|snapshots| > 0 && LastValue(snapshots) >= 0.0)
    ensures var txs := DebtDay(e, interestRate, paymentAmount, sourceId, day, snapshots, paymentDay, monthEnd);
            txs == Payment(e.id, sourceId, paymentAmount, day, paymentDay) +
                   Interest(e.id, interestRate, LastValue(snapshots), day, monthEnd)
  {
    assert FirstOnDay(e.ledger, day) == |e.ledger|;
  }

  /** For daily and custom rules every day inside the rule's bounds is a payment
      day, because the test asks about a one-day window. */
  lemma EveryDayPays(s: Schedule, day: int)
    requires s.kind == Daily || (s.kind == Custom && s.interval.Some? && s.interval.value > 0)
    requires s.startDate <= day && (s.endDate.None? || day <= s.endDate.value)
    ensures PaymentDay(s, day)
  {
  }

  /** Income and expense look only at the day and the ledger, never at the snapshots. */
  lemma ScheduledIgnoresSnapshots(e: Entity, day: int, s1: seq<Snapshot>, s2: seq<Snapshot>,
                                  pow: (real, real) -> real, p1: bool, p2: bool,
                                  m1: bool, m2: bool)
    requires e.details.IncomeDetails? || e.details.ExpenseDetails?
    ensures DayTransactions(e, day, s1, pow, p1, m1) == DayTransactions(e, day, s2, pow, p2, m2)
  {
  }

  /** Income emits nothing before its first entry or from a zero base; otherwise
      one delta to its target whose amount is the base exactly when there is no
      growth or the entry is dated on the day. */
  lemma IncomeBase(e: Entity, day: int, snapshots: seq<Snapshot>, pow: (real, real) -> real,
                        paymentDay: bool, monthEnd: bool)
    requires e.details.IncomeDetails?
    requires PowLaws(pow)
    ensures var txs := DayTransactions(e, day, snapshots, pow, paymentDay, monthEnd);
            var i := LastOnOrBefore(e.ledger, day);
            if i < 0 || e.ledger[i].amount.GetOr(0.0) == 0.0 then txs == []
            else |txs| == 1 && txs[0].targetEntityId == e.details.targetEntityId && !txs[0].isCorrection &&
                 (e.details.growthRate == 0.0 || e.ledger[i].day == day ==>
                    txs[0].amount == e.ledger[i].amount)
  {
    var i := LastOnOrBefore(e.ledger, day);
    if 0 <= i {
      var entry := e.ledger[i];
      if e.details.growthRate == 0.0 {
        assert pow(1.0 + e.details.growthRate, (day - entry.day) as real / 365.25) == 1.0;
      }
      if entry.day == day {
        assert (day - entry.day) as real / 365.25 == 0.0;
      }
    }
  }

  /** An expense emits exactly what an income with the same fields would, with
      the amount negated and its source as the target. */
  lemma ExpenseNegatesIncome(e: Entity, day: int, snapshots: seq<Snapshot>, pow: (real, real) -> real,
                        paymentDay: bool, monthEnd: bool)
    requires e.details.ExpenseDetails?
    ensures var ex := DayTransactions(e, day, snapshots, pow, paymentDay, monthEnd);
            var inc := DayTransactions(e.(details := IncomeDetails(e.details.growthRate, e.details.schedule,
                                                                   e.details.sourceEntityId)),
                                       day, snapshots, pow, paymentDay, monthEnd);
            |ex| == |inc| &&
            forall i :: 0 <= i < |inc| ==> inc[i].amount.Some? && ex[i] == inc[i].(amount := Some(-inc[i].amount.value))
  {
  }

  /** The fallback entity never asks for a day and never emits anything. */
  lemma FallbackQuiet(e: Entity, day: int, snapshots: seq<Snapshot>, pow: (real, real) -> real,
                        paymentDay: bool, monthEnd: bool)
    requires e.details.FallbackDetails?
    ensures DayTransactions(e, day, snapshots, pow, paymentDay, monthEnd) == []
  {
  }
}
