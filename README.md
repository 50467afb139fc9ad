# Money Math Lab projection engine, in Dafny

This project models the engine that projects a personal-finance plan into the
future. The engine lives in the Nuxt frontend of money-math-lab-rails-nuxt.

- **Plan.** A plan holds some scenario metadata (name, birth date,
  retirement age) and a list of *entities*.
- **Entities.** There are six kinds: account, possession, holding, debt,
  income and expense. There is also a fallback "Cash" entity, and
  transactions whose target is unknown go to it.
- **Ledger.** Each entity carries a ledger of dated entries.
- **Simulation days.** Each entity names the days it needs to be simulated on:
  - ledger days;
  - month ends, when balances grow or accrue interest;
  - the days of its payment rule (its *schedule*).
- **Transactions.** On each such day the entity emits transactions. A
  transaction is either a *correction*, which overwrites figures, or a
  *delta*, which adds to them.
- **Snapshots.** The simulation applies the transactions in day order to each
  target's list of snapshots.
- **Results.** From the snapshots it reads:
  - each entity's value on a day;
  - the totals of assets, debt and net worth;
  - a point per year, taken on 31 December.

Other parts of the engine covered by the model:
- the calendar arithmetic of `date-utils`, following ECMA-262's `Date.UTC` and
  `getUTC*`, with days counted from 1970-01-01;
- the payment rules of `schedule`: once, daily, weekly, monthly, yearly and
  every *n* days;
- the serialized form of entities;
- the template catalogue;
- the mute/solo rule;
- the display order of the entity list.

Modules, one per file:
- `DateUtils`, `Schedules`, `Values` (snapshot and transaction), `Entities` and
  `Variants` (the six kinds and what each does on a day);
- `Serialization`, `Templates`, `EntityUtils` with its generic core
  `DisplayOrder`, `Simulations` and `Plans`;
- the support modules `Wrappers`, `Collections` and `Text`.

Modelling choices:
- **Numbers.**
  - Days are unbounded integers.
  - Money amounts, quantities, prices and rates are `real`.
  - `Math.pow` is a parameter `pow`.
- **Classes.**
  - `Simulation` and `Plan` are classes, because the source updates their
    state in place: the snapshot map, the data-point memo and the memoised
    simulation.
  - The immutable entities, snapshots, transactions and schedules are
    datatypes.
- **Errors.** A thrown `Error` becomes a `Failure` carrying the source's
  message.
- **Clock.** The two readings of the clock (`getTodayEpochDay` and
  `new Date()`) are parameters (`today`, `clockToday`).

## Model

| member | source | states |
|---|---|---|
| DateUtils.YearFromDay | frontend/app/lib/date-utils.ts:25-28 | the year of day `z` is the unique year whose first day is at or before `z` and whose successor's first day is after it |
| DateUtils.EpochDayToDateDenotes | frontend/app/lib/date-utils.ts:25-28 | the calendar date `epochDayToDate` gives for a day names that same day again under `MakeDay` |
| DateUtils.EpochDayToDate | frontend/app/lib/date-utils.ts:25-28 | the date of any day is a valid calendar date (month 1-12, day within the month) |
| DateUtils.FullYear | frontend/app/lib/date-utils.ts:9-12 | the year `Date.UTC` uses is never in 0-99, because it reads those as 1900-1999 |
| DateUtils.MakeDayYear | frontend/app/lib/date-utils.ts:9-12 | a date whose month and day are in range falls in its own year |
| DateUtils.DateToEpochDayOfDate | frontend/app/lib/date-utils.ts:19-23 | re-reading a date through `Date.UTC` lands in the year `Date.UTC` makes of its year, and outside years 0-99 on the day whose date it is |
| DateUtils.ReadBack | frontend/app/lib/date-utils.ts:19-28 | the second pass of `dateToEpochDay` never lands in years 0-99, and leaves every day outside them unchanged |
| DateUtils.CreateEpochDaySecondPass | frontend/app/lib/date-utils.ts:15-23 | `createEpochDay` never returns a day in years 0-99, and agrees with one `Date.UTC` pass whenever that pass lands outside them |
| DateUtils.CreateEpochDayInRange | frontend/app/lib/date-utils.ts:15-23 | with month 1-12 and day 1-31, the second pass changes nothing: `createEpochDay` is `Date.UTC(year, month - 1, day)` |
| DateUtils.EpochDayToDateInjective | frontend/app/lib/date-utils.ts:25-28 | two days with the same calendar date are the same day |
| DateUtils.EpochDayZero | frontend/app/lib/date-utils.ts:25-28 | day 0 is 1970-01-01 |
| DateUtils.MakeDayRoundTrip | frontend/app/lib/date-utils.ts:19-23 | every valid calendar date is the date of the day `MakeDay` assigns it |
| DateUtils.CreateEpochDayRoundTrip | frontend/app/lib/date-utils.ts:3-23 | for a valid date outside years 0-99, `createEpochDay`, with both of its `Date.UTC` passes, gives a day whose date is that date |
| DateUtils.DateToEpochDayRoundTrip | frontend/app/lib/date-utils.ts:19-28 | `dateToEpochDay(epochDayToDate(z)) == z` whenever the year is outside 0-99 (where `Date.UTC` adds 1900) |
| DateUtils.WeekDay | frontend/app/lib/schedule.ts:148 | `getUTCDay` is always in 0..6 |
| DateUtils.DayZeroIsMonthEnd | frontend/app/lib/date-utils.ts:66 | day 0 of the next month, as `Date.UTC` computes it, is always the last day of some month |
| DateUtils.DayZeroByIndex | frontend/app/lib/date-utils.ts:66 | outside years 0-99, day 0 of month `m + 1` is exactly the day before the first of the month after `m` |
| DateUtils.MonthEndUnique | frontend/app/lib/date-utils.ts:54-76 | a month holds exactly one month-end day, its last |
| DateUtils.MonthEndReadBack | frontend/app/lib/date-utils.ts:66-67 | reading `Date.UTC(year, month + 1, 0)` back through `dateToEpochDay` gives the same day |
| DateUtils.ScanMonthsOfYear | frontend/app/lib/date-utils.ts:64-72 | the inner loop over one year's months keeps the list a set of in-range month ends and, outside years 0-99, ascending and complete up to the month reached |
| DateUtils.GetLastDaysOfMonthsInRange | frontend/app/lib/date-utils.ts:54-76 | every returned day is a month end within `[startDay, endDay]`; outside years 0-99 the list is strictly ascending and holds every month end in the range |
| DateUtils.NatToStringValue | frontend/app/lib/date-utils.ts:47-52 | the decimal digits written for `n` read back as `n` |
| DateUtils.TwoDigitField | frontend/app/lib/date-utils.ts:49-50 | `padStart(2, "0")` of a month or day number gives two digits that read back as the number |
| DateUtils.SplitThree | frontend/app/lib/date-utils.ts:79 | splitting `a-b-c` on `-` gives `[a, b, c]` when no part holds a dash |
| DateUtils.ParseDateString | frontend/app/lib/date-utils.ts:78-81 | every field of the result is at least 1 |
| DateUtils.ParseDateStringFields | frontend/app/lib/date-utils.ts:78-81 | field by field: a missing, zero or non-numeric field becomes 1970, 1 or 1, and any other field is kept |
| DateUtils.ToNumber | frontend/app/lib/date-utils.ts:79 | the empty string is 0, and every number read is non-negative |
| DateUtils.ToNumberOfString | frontend/app/lib/date-utils.ts:79 | `Number(String(n))` is `n` |
| DateUtils.ParseInvalid | frontend/app/lib/date-utils.ts:78-81 | the string `invalid` parses as 1970-01-01 |
| DateUtils.ParseFormatted | frontend/app/lib/date-utils.ts:47-81 | parsing a formatted date gives the date back (years from 1) |
| DateUtils.DateStringRoundTrip | frontend/app/lib/date-utils.ts:30-37 | `dateStringToEpochDay(epochDayToDateString(z)) == z` for years from 100 |
| DateUtils.StringFirstRoundTrip | frontend/app/lib/date-utils.ts:30-37 | string first: `epochDayToDateString(dateStringToEpochDay(formatDateString(d))) == formatDateString(d)` for every valid date from year 100 |
| DateUtils.ParsedDateDenotesDay | frontend/app/lib/date-utils.ts:34-37 | a string that parses to the date of day `z` (year 100 or later) converts to `z` |
| DateUtils.MonthYearToDateString | frontend/app/lib/date-utils.ts:83-88 | the result is empty exactly when the month is outside 1-12 or the year outside 1900-2100 |
| DateUtils.MonthYearToDateStringFifteenth | frontend/app/lib/date-utils.ts:83-88 | otherwise it is the formatted 15th of that month |
| DateUtils.BirthDateStringToMonthYear | frontend/app/lib/date-utils.ts:90-99 | a missing string, or one that is not ten characters with dashes at 4 and 7, gives January 1990; otherwise the month and year that `parseDateString` reads |
| DateUtils.FourDigitYear | frontend/app/lib/date-utils.ts:47-51 | a year from 1000 to 9999 prints as four characters |
| DateUtils.BirthDateOfFormatted | frontend/app/lib/date-utils.ts:90-99 | a birth date written by `formatDateString` with a four-digit year gives back its own month and year |
| DateUtils.AgeNonNegative | frontend/app/lib/date-utils.ts:113-118 | the age of someone born on or before today is not negative |
| DateUtils.CalculateAge | frontend/app/lib/date-utils.ts:101-121 | without a birth date the age is today's year minus 1990; otherwise the difference of years, less one before the birthday |
| Collections.SortedSet | frontend/app/features/entity/entity-types/account-entity.ts:68 | `Array.from(new Set(days)).sort()`: strictly ascending, with exactly the input's members |
| Collections.AscendingUnique | frontend/app/features/entity/entity-types/account-entity.ts:68 | two strictly ascending lists with the same members are equal, so the result is determined by the member set |
| Collections.SortedSetOfAscending | frontend/app/features/entity/entity-types/account-entity.ts:68 | deduplicating and sorting an ascending list returns it unchanged |
| Text.ToLower | frontend/app/features/entity/serialization.ts:14 | same length, no capital letters left, and every other character kept |
| Text.ToLowerIdempotent | frontend/app/features/entity/serialization.ts:14 | lowercasing twice is lowercasing once |
| Wrappers.MapAll | frontend/app/features/entity/serialization.ts:37-39 | mapping a fallible step succeeds with one result per element, in order, or fails with the error of the first failing element |
| Schedules.TypeNameInjective | frontend/app/lib/schedule.ts:1-8 | the schedule type names are lowercase and distinct |
| Schedules.NormaliseDays | frontend/app/lib/schedule.ts:59-65 | floor, keep the ones in range, deduplicate, sort: strictly ascending, holding exactly the in-range floors of the input |
| Schedules.NormaliseNormalised | frontend/app/lib/schedule.ts:59-77 | normalising an already normalised day list changes nothing |
| Schedules.NormaliseList | frontend/app/lib/schedule.ts:59-77 | a missing list stays missing; a present one becomes its normalised form |
| Schedules.NormaliseInterval | frontend/app/lib/schedule.ts:83-85 | a missing or zero interval is kept as is; any other becomes `max(1, floor(interval))` |
| Schedules.NewSchedule | frontend/app/lib/schedule.ts:54-97 | each of the four errors arises under the source's guard, checked in the source's order, with its message; it succeeds exactly when no guard holds; on success the rule is well formed and holds the normalised input |
| Schedules.TypeFromString | frontend/app/lib/schedule.ts:40-42 | the lowercased name selects the type it names; a missing or unknown name gives monthly |
| Schedules.TypeFromNameRoundTrip | frontend/app/lib/schedule.ts:40-42 | reading a type's own name gives that type |
| Schedules.ToSerialized | frontend/app/lib/schedule.ts:102-111 | the stored record carries the type's name and the rule's dates |
| Schedules.SerializedRoundTrip | frontend/app/lib/schedule.ts:39-111 | reading back a stored well-formed rule gives the same rule |
| Schedules.ScanDays | frontend/app/lib/schedule.ts:133-170 | the day-by-day walks (daily, weekly, monthly) return, in ascending order, exactly the days of the range the rule keeps |
| Schedules.StepDays | frontend/app/lib/schedule.ts:192-202 | the every-*n*-days walk returns, ascending, exactly the days of the range a whole number of steps from its start |
| Schedules.SteppedGap | frontend/app/lib/schedule.ts:197-200 | two dates of an every-*n*-days rule are at least *n* days apart |
| Schedules.YearlyCandidate | frontend/app/lib/schedule.ts:180-183 | a candidate that passes the month-and-day check is the only day of its year with the start date's month and day |
| Schedules.YearlyVisit | frontend/app/lib/schedule.ts:180-187 | one year's step of the yearly loop keeps only in-range anniversaries and, outside years 0-99, collects that year's |
| Schedules.YearlyDates | frontend/app/lib/schedule.ts:172-190 | yearly dates are in-range anniversaries of the start date; outside years 0-99 all of them, ascending |
| Schedules.GetDatesInRange | frontend/app/lib/schedule.ts:116-206 | every date lies in the effective window and occurs under the rule; apart from yearly rules over years 0-99, the list is ascending and holds every such date |
| Values.NewSnapshot | frontend/app/features/simulation/snapshot.ts:17-22 | a figure left out is 0; the others are taken as given |
| Values.SnapshotValueCases | frontend/app/features/simulation/snapshot.ts:24-26 | the value is the amount when it is non-zero, and quantity times price otherwise |
| Values.DayOnlySnapshotValue | frontend/app/features/simulation/snapshot.ts:17-26 | a snapshot made from a day alone is worth 0 |
| Values.Snapshot.Copy | frontend/app/features/simulation/snapshot.ts:28-30 | each field is the update's where given and the original's otherwise |
| Values.SnapshotCopyNothing | frontend/app/features/simulation/snapshot.ts:28-30 | copying with no updates gives an equal snapshot |
| Values.SnapshotCopyIdempotent | frontend/app/features/simulation/snapshot.ts:28-30 | applying the same updates twice is applying them once |
| Values.NewTransaction | frontend/app/features/simulation/transaction.ts:21-28 | the figures are kept as given, including missing ones; it is a correction only when the input says so |
| Values.Delta | frontend/app/features/simulation/transaction.ts:21-28 | the transaction the variants emit for an amount: dated on the day, to the target, carrying only the amount, and not a correction |
| Values.Transaction.Copy | frontend/app/features/simulation/transaction.ts:30-32 | each field is the update's where given and the original's otherwise |
| Values.TransactionCopyNothing | frontend/app/features/simulation/transaction.ts:30-32 | copying with no updates gives an equal transaction |
| Values.RetargetKeepsRest | frontend/app/features/simulation/transaction.ts:30-32 | copying with only a new target changes the target and nothing else |
| Entities.NewEntity | frontend/app/features/entity/entity.ts:33-39 | the base fields are the input's, and a missing ledger is empty |
| Entities.SerializeLedger | frontend/app/features/entity/entity.ts:13-21 | one record per entry, in order, with the entry's id, day and figures |
| Entities.DeserializeLedger | frontend/app/features/entity/entity-types/income-entity.ts:25-31 | one entry per stored record, in order, with the record's id, day and figures |
| Entities.TypeOf | frontend/app/features/entity/entity.ts:49-58 | every kind has a type tag except the fallback entity |
| Entities.LedgerRoundTrip | frontend/app/features/entity/entity.ts:13-21 | reading back a serialized ledger gives the ledger |
| Entities.GetSerializedBase | frontend/app/features/entity/entity.ts:49-58 | the record carries the entity's id, name, template, type tag and parent, and a ledger that reads back as the entity's |
| Entities.EarliestDay | frontend/app/features/entity/entity.ts:63-65 | the day of the first ledger entry, or 0 for an empty ledger |
| Entities.NewFallbackEntity | frontend/app/features/entity/entity-types/fallback-entity.ts:11-18 | the fallback is "Cash", with id `__fallback__`, key `fallback`, no parent and no ledger |
| Templates.FindByKey | frontend/app/features/entity/entity-templates.ts:183-185 | none exactly when no template has the key; otherwise the first template with the key |
| Templates.GetEntityTemplate | frontend/app/features/entity/entity-templates.ts:183-185 | the template of the catalogue with the key, none when there is none |
| Templates.GetTemplatesForEntityType | frontend/app/features/entity/entity-templates.ts:187-189 | exactly the catalogue's templates of the given type |
| Templates.FilterByTypeAppend | frontend/app/features/entity/entity-templates.ts:187-189 | the filter keeps catalogue order |
| Templates.KeysDistinct | frontend/app/features/entity/entity-templates.ts:33-181 | no two templates share a key |
| Templates.LookupOwnKey | frontend/app/features/entity/entity-templates.ts:183-185 | a template's own key finds that template |
| Templates.FallbackKeyHasNoTemplate | frontend/app/features/entity/entity-templates.ts:183-185 | the fallback's key `fallback` names no template |
| Templates.CategoryFollowsType | frontend/app/features/entity/entity-templates.ts:33-181 | debt, expense and income templates are in their own categories, and every other template is an investment |
| Templates.SortOrderComplete | frontend/app/features/entity/entity-templates.ts:26-31 | every category has exactly one place in the sort order |
| EntityUtils.HasAncestorIn | frontend/app/features/entity/utils.ts:20-26 | the walk up the parent links finds an id of the set exactly when some ancestor carries one; it stops when the chain ends or when it meets such an id, even on a cycle |
| EntityUtils.IsEntityActive | frontend/app/features/entity/utils.ts:8-48 | active exactly when neither the entity nor an ancestor is muted and, if anything is soloed, the entity or an ancestor is |
| EntityUtils.AncestorInParent | frontend/app/features/entity/utils.ts:20-26 | an ancestor is in a set exactly when the parent is, or an ancestor of the parent is |
| EntityUtils.MutedCycleStops | frontend/app/features/entity/utils.ts:14-26 | on two entities whose parent links name each other, with the parent muted, the chain never ends but the walk stops and the entity is inactive |
| EntityUtils.TopLevelActive | frontend/app/features/entity/utils.ts:8-48 | an entity without a parent is active exactly when it is not muted and, under solos, is soloed |
| EntityUtils.MutedParentMutesChild | frontend/app/features/entity/utils.ts:19-26 | muting an entity mutes all below it |
| EntityUtils.ActiveParentActivatesChild | frontend/app/features/entity/utils.ts:8-48 | the child of an active entity is active unless muted itself |
| EntityUtils.ActiveChildHasActiveParent | frontend/app/features/entity/utils.ts:28-44 | under solos, an active entity that is not soloed has an active parent |
| EntityUtils.IndexOf | frontend/app/features/entity/utils.ts:59-62 | the first place of the category, or the length of the order when it is absent |
| EntityUtils.Rank | frontend/app/features/entity/utils.ts:54-62 | the entity's rank is the first place of its category in the sort order, and never the "absent" value |
| EntityUtils.FallbackRanksAsInvestment | frontend/app/features/entity/utils.ts:54-57 | a key with no template sorts as an investment, second in the order |
| EntityUtils.ParentKey | frontend/app/features/entity/utils.ts:65 | an entity counts as a child exactly when its parent id is present and non-empty |
| EntityUtils.SortEntities | frontend/app/features/entity/utils.ts:53-101 | the top-level entities come out in stable category order; with distinct ids the result is a permutation of the input |
| DisplayOrder.SortedOrdered | frontend/app/features/entity/utils.ts:77-81 | the sorted parents are in non-decreasing rank |
| DisplayOrder.SortedWithRank | frontend/app/features/entity/utils.ts:77-81 | the sort is stable: the elements of each rank keep their input order |
| DisplayOrder.SortedPermutes | frontend/app/features/entity/utils.ts:77-81 | the sort is a permutation |
| DisplayOrder.ChildrenByParent | frontend/app/features/entity/utils.ts:66-74 | each parent id maps to its children in input order; an id without children has no entry |
| DisplayOrder.IndexesChildrenSnoc | frontend/app/features/entity/utils.ts:68-74 | one loop step files the element under its parent id and keeps the index exact |
| DisplayOrder.GroupParents | frontend/app/features/entity/utils.ts:84-89 | each sorted parent is followed by its children |
| DisplayOrder.AddOrphans | frontend/app/features/entity/utils.ts:92-98 | orphans not yet listed are appended in input order, after what is already there |
| DisplayOrder.OrphansTail | frontend/app/features/entity/utils.ts:92-98 | everything appended after the groups is a child whose parent id names no top-level element |
| DisplayOrder.AppendOrphansDistinct | frontend/app/features/entity/utils.ts:92-98 | with distinct ids, appending orphans to a list that holds none gives that list followed by `Orphans`, the input-order filter of elements with a parent id outside the top-level ids; the `includes` test never drops one |
| DisplayOrder.ArrangedOrphans | frontend/app/features/entity/utils.ts:53-101 | with distinct ids, the display order is exactly the grouping followed by the orphans in input order |
| DisplayOrder.ArrangedSortsParents | frontend/app/features/entity/utils.ts:77-89 | the top-level elements of the result are those of the input, in sorted order |
| DisplayOrder.ArrangedChildAfterParent | frontend/app/features/entity/utils.ts:84-89 | a child whose parent is listed comes after that parent |
| DisplayOrder.GroupedHeadChildren | frontend/app/features/entity/utils.ts:84-89 | in the grouping, an element without a parent is followed immediately by exactly its children, in input order |
| DisplayOrder.ArrangedChildrenFollow | frontend/app/features/entity/utils.ts:84-89 | in the display order, each top-level element is followed immediately by exactly its children, in input order |
| DisplayOrder.ArrangedPermutes | frontend/app/features/entity/utils.ts:53-101 | with distinct ids every element is listed exactly as often as in the input |
| DisplayOrder.Arrange | frontend/app/features/entity/utils.ts:53-101 | the filter, the stable sort, the grouping and the orphans, step by step, give the display order `Arranged`, whose properties `ArrangedSortsParents`, `ArrangedChildrenFollow`, `ArrangedOrphans` and `ArrangedPermutes` state |
| Serialization.ReadNumber | frontend/app/features/entity/entity-types/account-entity.ts:30 | the stored number, or 0 when the key is absent |
| Serialization.ReadString | frontend/app/features/entity/entity-types/debt-entity.ts:43 | the stored string, or the empty string when the key is absent |
| Serialization.ReadSchedule | frontend/app/features/entity/entity-types/debt-entity.ts:40-42 | a missing rule reads as the default: monthly on the 1st from today |
| Serialization.DefaultScheduleValid | frontend/app/features/entity/entity-types/debt-entity.ts:42 | that default is accepted by the schedule constructor |
| Serialization.ReadMissingSchedule | frontend/app/features/entity/entity-types/debt-entity.ts:40-42 | a rule missing from the record reads as the monthly rule on the 1st from today |
| Serialization.BaseInput | frontend/app/features/entity/entity-types/account-entity.ts:18-29 | the ledger read from the record is its deserialized entries |
| Serialization.AccountFromSerialized | frontend/app/features/entity/entity-types/account-entity.ts:17-32 | the record is read as an account |
| Serialization.PossessionFromSerialized | frontend/app/features/entity/entity-types/possession-entity.ts:17-32 | the record is read as a possession |
| Serialization.HoldingFromSerialized | frontend/app/features/entity/entity-types/holding-entity.ts:19-35 | the record is read as a holding |
| Serialization.DebtWith | frontend/app/features/entity/entity-types/debt-entity.ts:24-45 | a debt is read exactly when its payment rule is, and is a debt, holding the payment rule read |
| Serialization.DebtFromSerialized | frontend/app/features/entity/entity-types/debt-entity.ts:24-45 | a debt when read; without a stored payment rule it reads, with the monthly rule on the 1st from today |
| Serialization.IncomeWith | frontend/app/features/entity/entity-types/income-entity.ts:18-42 | an income is read exactly when its rule is, and is an income, holding the rule read |
| Serialization.IncomeFromSerialized | frontend/app/features/entity/entity-types/income-entity.ts:18-42 | an income when read; without a stored rule it reads, with the monthly rule on the 1st from today |
| Serialization.ExpenseWith | frontend/app/features/entity/entity-types/expense-entity.ts:21-45 | an expense is read exactly when its rule is, and is an expense, holding the rule read |
| Serialization.ExpenseFromSerialized | frontend/app/features/entity/entity-types/expense-entity.ts:21-45 | an expense when read; without a stored rule it reads, with the monthly rule on the 1st from today |
| Serialization.ToSerialized | frontend/app/features/entity/entity-types/fallback-entity.ts:20-22 | serializing fails exactly for the fallback entity; any other record carries its own kind's tag |
| Serialization.TagOf | frontend/app/features/entity/serialization.ts:16-28 | a tag names the kind whose tag it is, or none when no kind has it |
| Serialization.TagOfTypeTag | frontend/app/features/entity/serialization.ts:16-28 | each kind's own tag names it |
| Serialization.FromTag | frontend/app/features/entity/serialization.ts:16-28 | the record is read as the chosen kind |
| Serialization.DeserializeEntity | frontend/app/features/entity/serialization.ts:13-32 | the entity read has the kind the lowercased tag names; an unknown tag fails with `Unknown entity type: <tag>` |
| Serialization.TagIgnoresCase | frontend/app/features/entity/serialization.ts:14 | the tag's case does not matter |
| Serialization.DeserializeEntities | frontend/app/features/entity/serialization.ts:37-39 | all records read in order, or the first failure; it succeeds whenever every record reads |
| Serialization.BaseRoundTrip | frontend/app/features/entity/entity.ts:49-58 | the base fields survive a write and read |
| Serialization.ScheduleRoundTrip | frontend/app/features/entity/entity-types/debt-entity.ts:40-41 | a stored well-formed rule is read back unchanged |
| Serialization.PlainRoundTrip | frontend/app/features/entity/entity-types/account-entity.ts:17-46 | accounts, possessions and holdings read back as themselves |
| Serialization.DebtReadsBack | frontend/app/features/entity/entity-types/debt-entity.ts:24-45 | a debt record written with given rate, payment, rule and source reads those back |
| Serialization.DebtRoundTrip | frontend/app/features/entity/entity-types/debt-entity.ts:24-65 | a debt with a well-formed rule reads back as itself |
| Serialization.IncomeReadsBack | frontend/app/features/entity/entity-types/income-entity.ts:18-42 | an income record written with given growth, rule and target reads those back |
| Serialization.IncomeRoundTrip | frontend/app/features/entity/entity-types/income-entity.ts:18-60 | an income with a well-formed rule reads back as itself |
| Serialization.ExpenseReadsBack | frontend/app/features/entity/entity-types/expense-entity.ts:21-45 | an expense record written with given growth, rule and source reads those back |
| Serialization.ExpenseRoundTrip | frontend/app/features/entity/entity-types/expense-entity.ts:21-63 | an expense with a well-formed rule reads back as itself |
| Serialization.EntityRoundTrip | frontend/app/features/entity/serialization.ts:13-32 | every serialisable entity is written, and read back as itself |
| Variants.FirstOnDay | frontend/app/features/entity/entity-types/account-entity.ts:72 | `ledger.find(e => e.day === day)`: the first entry on the day, or the length when there is none |
| Variants.LastOnOrBefore | frontend/app/features/entity/entity-types/income-entity.ts:82 | the last entry on or before the day, or -1 when there is none |
| Variants.LedgerDaysWithin | frontend/app/features/entity/entity-types/account-entity.ts:57-61 | exactly the ledger days within the window |
| Variants.EffectiveStartDay | frontend/app/features/entity/entity-types/account-entity.ts:49 | `Math.max(startDay, earliest)`: at least both, and one of them |
| Variants.ScheduleDays | frontend/app/features/entity/entity-types/debt-entity.ts:87-92 | outside years 0-99, exactly the days the rule schedules within the window |
| Variants.GetSimulationDays | frontend/app/features/entity/entity-types/debt-entity.ts:67-96 | strictly ascending; empty when the window is empty or for the fallback; outside years 0-99, exactly the days the entity's kind needs |
| Variants.SimulationDayCases | frontend/app/features/entity/entity-types/debt-entity.ts:67-96 | the days are: ledger days and month ends for all kinds except income and expense; schedule days for debt, income and expense |
| Variants.Correction | frontend/app/features/entity/entity-types/account-entity.ts:75-82 | a ledger entry becomes a correction on its entity carrying the entry's figures |
| Variants.GrowthDay | frontend/app/features/entity/entity-types/account-entity.ts:71-101 | at most one transaction, on the day |
| Variants.HoldingDay | frontend/app/features/entity/entity-types/holding-entity.ts:76-106 | at most one transaction, on the day |
| Variants.LastDayOfMonthMeansMonthEnd | frontend/app/features/entity/entity-types/debt-entity.ts:149-153 | outside years 0-99, the debt's last-day-of-month test holds exactly on month ends |
| Variants.DebtDay | frontend/app/features/entity/entity-types/debt-entity.ts:98-169 | at most three transactions, all on the day |
| Variants.DayTransactions | frontend/app/features/entity/entity.ts:75 | whatever the kind, at most three transactions, all dated on the day |
| Variants.Payment | frontend/app/features/entity/entity-types/debt-entity.ts:130-146 | at most two deltas, on the day |
| Variants.Interest | frontend/app/features/entity/entity-types/debt-entity.ts:155-166 | at most one delta, on the day |
| Variants.InterestDeepensDebt | frontend/app/features/entity/entity-types/debt-entity.ts:155-166 | on a month end with a non-zero rate and a negative balance, the interest is `balance * rate / 12`; otherwise there is none |
| Variants.IncomeDay | frontend/app/features/entity/entity-types/income-entity.ts:80-106 | at most one transaction, on the day |
| Variants.ExpenseDay | frontend/app/features/entity/entity-types/expense-entity.ts:84-110 | at most one transaction, on the day |
| Variants.IsPaymentDay | frontend/app/features/entity/entity-types/debt-entity.ts:127-128 | true only on a day the rule schedules; outside years 0-99, exactly on those days |
| Variants.SimulateDay | frontend/app/features/entity/entity.ts:75 | every transaction is on the day; the list is the kind's day rule applied with the month-end test as written and a payment-day flag, and outside years 0-99 with the exact payment-day and month-end flags |
| Variants.LedgerEntryWins | frontend/app/features/entity/entity-types/account-entity.ts:72-84 | for accounts, possessions, holdings and debts, a ledger entry on the day yields exactly its correction |
| Variants.BalanceGrowth | frontend/app/features/entity/entity-types/account-entity.ts:86-100 | otherwise an account or possession grows by value × rate / 12 as one non-zero delta, or emits nothing at zero rate or zero value |
| Variants.HoldingGrowth | frontend/app/features/entity/entity-types/holding-entity.ts:92-105 | a holding's share price is corrected to price × (1 + rate / 12), and nothing is emitted without a positive last price |
| Variants.DebtSettledStops | frontend/app/features/entity/entity-types/debt-entity.ts:117-122 | a debt whose last balance is not negative emits nothing |
| Variants.DebtPaymentThenInterest | frontend/app/features/entity/entity-types/debt-entity.ts:124-168 | an open debt with no ledger entry on the day emits its payment pair first, then the interest when the month-end flag holds, and never a correction |
| Variants.EveryDayPays | frontend/app/features/entity/entity-types/debt-entity.ts:127-128 | a daily or every-*n*-days rule pays on every day of its span |
| Variants.ScheduledIgnoresSnapshots | frontend/app/features/entity/entity-types/income-entity.ts:80 | income and expense do not depend on the snapshots |
| Variants.IncomeBase | frontend/app/features/entity/entity-types/income-entity.ts:80-106 | income pays its target one delta based on the latest entry on or before the day, and nothing without a non-zero base; with no growth or elapsed time it pays the base itself |
| Variants.ExpenseNegatesIncome | frontend/app/features/entity/entity-types/expense-entity.ts:84-110 | an expense emits the income it mirrors with the amount negated |
| Variants.FallbackQuiet | frontend/app/features/entity/entity-types/fallback-entity.ts:24-30 | the fallback emits nothing |
| Simulations.NextSnapshot | frontend/app/features/simulation/simulation.ts:166-191 | the new snapshot is dated on the transaction's day |
| Simulations.Applied | frontend/app/features/simulation/simulation.ts:157-197 | refused exactly when older than the last snapshot; otherwise the last snapshot is replaced (same day) or followed by the new one, and the list stays chronological |
| Simulations.ValueOnLatest | frontend/app/features/simulation/simulation.ts:62-76 | in a chronological list the value on a day is that of the latest snapshot on or before it |
| Simulations.ValueOn | frontend/app/features/simulation/simulation.ts:62-76 | 0 when every snapshot is after the day |
| Simulations.ValueOnLast | frontend/app/features/simulation/simulation.ts:62-76 | after all snapshots, the value is the last one's |
| Simulations.AppliedKeepsPast | frontend/app/features/simulation/simulation.ts:148-198 | applying a transaction does not change values on earlier days |
| Simulations.AppliedSetsPresent | frontend/app/features/simulation/simulation.ts:148-198 | from its day on, the value is that of the new snapshot |
| Simulations.DeltasCommute | frontend/app/features/simulation/simulation.ts:180-184 | two deltas of the same day may be applied in either order |
| Simulations.CorrectionIdempotent | frontend/app/features/simulation/simulation.ts:170-179 | applying a correction twice is applying it once |
| Simulations.FullCorrectionForgets | frontend/app/features/simulation/simulation.ts:170-179 | a correction with all three figures makes the snapshot independent of history |
| Simulations.PositiveSum | frontend/app/features/simulation/simulation.ts:98-107 | the asset total is never negative |
| Simulations.NegativeSum | frontend/app/features/simulation/simulation.ts:109-118 | the debt total is never negative |
| Simulations.NetWorthIsSum | frontend/app/features/simulation/simulation.ts:120-122 | assets minus debt is the sum of all values |
| Simulations.EntitiesById | frontend/app/features/simulation/simulation.ts:33-36 | every entity's id is a key mapped to an entity with that id, and a later duplicate wins |
| Simulations.IdOrder | frontend/app/features/simulation/simulation.ts:33-36 | the keys in insertion order, each once |
| Simulations.IndexEntities | frontend/app/features/simulation/simulation.ts:33-36 | the loop builds exactly that order and map |
| Simulations.InitiallyIndexed | frontend/app/features/simulation/simulation.ts:29-36 | the fresh maps satisfy the simulation's invariant |
| Simulations.FindFallback | frontend/app/features/simulation/simulation.ts:38-41 | the first fallback entity of the list, none when there is none |
| Simulations.FallbackRegistered | frontend/app/features/simulation/simulation.ts:38-42 | the fallback found is in the entity map |
| Simulations.AppliedUpTo | frontend/app/features/simulation/simulation.ts:162-164 | applying a transaction of day `d` leaves no snapshot after `d` |
| Simulations.CarryForward | frontend/app/features/simulation/simulation.ts:166-184 | the figures computed step by step are those of the next snapshot |
| Simulations.NoSnapshots | frontend/app/features/simulation/simulation.ts:35 | every entity starts with an empty list |
| Simulations.EarliestFromBounds | frontend/app/features/simulation/simulation.ts:44-50 | the loop's result is a first ledger day at or below every first ledger day, and 0 only when no ledger has entries |
| Simulations.StartDayIsEarliest | frontend/app/features/simulation/simulation.ts:44-54 | the start is the earliest first ledger day, or today when no ledger has entries |
| Simulations.FindStartDay | frontend/app/features/simulation/simulation.ts:44-54 | the loop computes the start day |
| Simulations.Simulation.Create | frontend/app/features/simulation/simulation.ts:28-60 | fails exactly when there is no fallback entity, with the source's message; otherwise the indexed entities over `years × 365` days from the start day |
| Simulations.Simulation.constructor | frontend/app/features/simulation/simulation.ts:28-60 | indexes the entities, sets the window and runs the simulation, keeping the invariant |
| Simulations.Simulation.GetEntityValueForDay | frontend/app/features/simulation/simulation.ts:62-76 | the backwards scan returns the entity's value on the day (see ValueOnLatest), 0 for an unknown id |
| Simulations.Simulation.EntityValue | frontend/app/features/simulation/simulation.ts:62-76 | 0 for an unknown id, and 0 before the entity's first snapshot |
| Simulations.Simulation.GetAssets | frontend/app/features/simulation/simulation.ts:98-107 | the sum of the positive values of all entities on the day |
| Simulations.Simulation.GetDebt | frontend/app/features/simulation/simulation.ts:109-118 | the sum of the magnitudes of the negative values |
| Simulations.Simulation.GetNetWorth | frontend/app/features/simulation/simulation.ts:120-122 | assets minus debt, which is the sum of all values |
| Simulations.Simulation.PointOn | frontend/app/features/simulation/simulation.ts:87-91 | a year's point has non-negative assets and debt, and net worth is their difference |
| Simulations.Simulation.YearEndPoints | frontend/app/features/simulation/simulation.ts:84-92 | holds 31 December of every year of the range, each with that day's totals, and nothing else |
| Simulations.Simulation.YearEndDay | frontend/app/features/simulation/simulation.ts:85 | `createEpochDay(year, 12, 31)` is 31 December of that year, as one `Date.UTC` pass gives it |
| Simulations.Simulation.GetDataPointsForAllYears | frontend/app/features/simulation/simulation.ts:78-96 | the points cover every year of the window with that day's totals; once computed they are kept |
| Simulations.Simulation.Redirected | frontend/app/features/simulation/simulation.ts:149-155 | a transaction to an unknown target goes to the fallback, unchanged otherwise |
| Simulations.Simulation.ApplyTransaction | frontend/app/features/simulation/simulation.ts:148-198 | only the target's list changes, to the applied list; applied in day order it never fails and keeps every snapshot at or before the day |
| Simulations.Simulation.ApplyAll | frontend/app/features/simulation/simulation.ts:141-143 | applying one day's transactions keeps the invariant and no snapshot is later than the day |
| Simulations.Simulation.SimulateEntities | frontend/app/features/simulation/simulation.ts:138-144 | simulating one day's entities keeps the invariant and no snapshot is later than the day |
| Simulations.Simulation.BucketByDay | frontend/app/features/simulation/simulation.ts:125-133 | the day keys are exactly the days with entities, and every bucketed entity is registered |
| Simulations.Simulation.RunSimulation | frontend/app/features/simulation/simulation.ts:124-146 | replaying the days in ascending order keeps the invariant |
| Plans.ProjectionYears | frontend/app/features/plan/plan.ts:80-82 | at least one year, and at least enough to reach 15 years past retirement |
| Plans.ProjectionReachesTarget | frontend/app/features/plan/plan.ts:80-82 | the projection ends exactly at the target age, unless that is already reached (then one year) |
| Plans.RetirementDayIsAnniversary | frontend/app/features/plan/plan.ts:150-153 | for any stored birth date, the retirement day is the parsed birthday in the year of the retirement age, whenever that date exists and is in year 100 or later |
| Plans.RetirementDayOfFormatted | frontend/app/features/plan/plan.ts:150-153 | for a birth date written by `formatDateString`, that is the birth date's own anniversary |
| Plans.FindById | frontend/app/features/plan/plan.ts:211 | the first entity with the id, none when there is none |
| Plans.KeepListed | frontend/app/features/plan/plan.ts:98 | exactly the plan's entities that are in the active list |
| Plans.KeepAllListed | frontend/app/features/plan/plan.ts:92-101 | filtering by the plan's own list keeps it whole |
| Plans.KeepListedWithin | frontend/app/features/plan/plan.ts:98 | a list filtered by a superset is unchanged |
| Plans.KeepListedTwice | frontend/app/features/plan/plan.ts:92-101 | filtering twice is filtering once |
| Plans.LastAmount | frontend/app/features/plan/plan.ts:214-217 | the amount of the last ledger entry, 0 when missing |
| Plans.Plan.FromSerialized | frontend/app/features/plan/plan.ts:37-46 | fails exactly when an entity cannot be read, with that error; otherwise a fresh plan with the record's metadata and entities |
| Plans.Plan.constructor | frontend/app/features/plan/plan.ts:48-55 | the input's fields, no entities when none are given, and the clock's day when no day is given |
| Plans.Plan.ToSerialized | frontend/app/features/plan/plan.ts:60-67 | the summary carries the metadata |
| Plans.Plan.SimulatedEntities | frontend/app/features/plan/plan.ts:78 | the fallback first, then the plan's entities |
| Plans.Plan.Project | frontend/app/features/plan/plan.ts:77-84 | a fresh simulation of the fallback and the entities over the projection years |
| Plans.Plan.Simulate | frontend/app/features/plan/plan.ts:72-87 | runs the projection once and returns the plan; later calls keep the same simulation |
| Plans.Plan.Filter | frontend/app/features/plan/plan.ts:92-101 | a fresh unsimulated plan with the same metadata and today, and the listed entities |
| Plans.Plan.WithUpdates | frontend/app/features/plan/plan.ts:106-117 | a fresh plan with each given field replaced and the rest, including entities and today, kept |
| Plans.Plan.GetSimulationStartDay | frontend/app/features/plan/plan.ts:122-124 | the simulation's start day, 0 before `simulate` |
| Plans.Plan.GetSimulationEndDay | frontend/app/features/plan/plan.ts:129-131 | the simulation's end day, 0 before `simulate` |
| Plans.Plan.GetRetirementDay | frontend/app/features/plan/plan.ts:150-153 | the retirement day of the plan's own birth date and age, which `RetirementDayIsAnniversary` characterises |
| Plans.Plan.AssetsOn | frontend/app/features/plan/plan.ts:158-168 | 0 before `simulate`, else the sum of the positive values on the day |
| Plans.Plan.DebtOn | frontend/app/features/plan/plan.ts:172-183 | 0 before `simulate`, else the sum of the magnitudes of the negative values on the day |
| Plans.Plan.NetWorthOn | frontend/app/features/plan/plan.ts:188-198 | 0 before `simulate`, else the sum of all values on the day |
| Plans.Plan.GetDataPointsForAllYears | frontend/app/features/plan/plan.ts:143-145 | empty before `simulate`; otherwise every year's point, sound and complete |
| Plans.Plan.GetAssetsForToday | frontend/app/features/plan/plan.ts:158-160 | the asset total on today's day, 0 before `simulate` |
| Plans.Plan.GetAssetsForLastYear | frontend/app/features/plan/plan.ts:165-168 | the asset total 365 days ago, 0 before `simulate` |
| Plans.Plan.GetDebtForToday | frontend/app/features/plan/plan.ts:173-175 | the debt total today, 0 before `simulate` |
| Plans.Plan.GetDebtForLastYear | frontend/app/features/plan/plan.ts:180-183 | the debt total 365 days ago, 0 before `simulate` |
| Plans.Plan.GetNetWorthForToday | frontend/app/features/plan/plan.ts:188-190 | the net worth today, 0 before `simulate` |
| Plans.Plan.GetNetWorthForLastYear | frontend/app/features/plan/plan.ts:195-198 | the net worth 365 days ago, 0 before `simulate` |
| Plans.Plan.GetEntityValue | frontend/app/features/plan/plan.ts:203-205 | the entity's value today, 0 before `simulate` |
| Plans.Plan.GetEntityDisplayValue | frontend/app/features/plan/plan.ts:210-220 | 0 for an unknown id; an income or expense shows its last ledger amount; any other entity shows its value today |

## Left out

- Time of day is not modelled. Dates are whole UTC days, so:
  - `createUTCDayDate`'s `endOfDay` variant (23:59:59.999) is not modelled;
  - the ISO date-time strings of stored schedules are held as epoch days, and their parsing by `new Date(string)` is not modelled.
- Floating point is not modelled: figures are exact reals. That leaves out:
  - rounding;
  - `NaN` and infinities;
  - the `Date` range limit (±100,000,000 days).
- `Math.pow` is a parameter constrained only by two laws (`PowLaws`): `pow(x, 0) == 1` and `pow(1, x) == 1`.
  - Variants.IncomeBase: states the paid amount only when there is no growth or no elapsed time, because nothing more is known about `pow`.
- The clock (`getTodayEpochDay`, `getTodayDateString`, `new Date()`) is a parameter.
- `toLowerCase` is modelled for ASCII letters only.
- DateUtils.ToNumber: only the empty string and runs of decimal digits are numbers; everything else reads as NaN. `Number()` also accepts these forms, which the model does not:
  - surrounding whitespace (" 12");
  - decimals ("5.5", which `Date.UTC` then truncates to 5);
  - exponents ("1e3");
  - hexadecimal, binary and octal literals ("0x10");
  - a leading sign ("+5").
- DateUtils.ParseDateString: because of `ToNumber`, a field in one of those forms falls back to its default. For example, "2020-01-5.5" gives day 1 where the source gives day 5.
- Values.Snapshot.Copy and Values.Transaction.Copy: an update field is either absent (`None`, keep) or a value (replace). A `Partial` update that holds a key whose value is explicitly `undefined` is not modelled:
  - the spread replaces the field with `undefined`;
  - the snapshot constructor then makes that figure 0 (snapshot.ts lines 28-30);
  - the transaction keeps it `undefined` (transaction.ts lines 30-32).
- A stored data value of the wrong kind (a string where a number is expected) is read as 0 or as the empty string. The source would pass it on uncast.
- The template icon is presentation only.
- The account, possession, holding and debt classes call `this.serializeBase`, which `Entity` does not define. Only income and expense call `getSerializedBase` (entity.ts lines 49-58). The model uses `getSerializedBase` for all six.
- DateUtils.GetLastDaysOfMonthsInRange: ascending order and completeness are stated only for windows outside years 0-99.
  - There, `Date.UTC` moves the year to 1900+y, which can drop month ends or list them out of order.
  - The same restriction applies to Schedules.GetDatesInRange, Schedules.YearlyDates, Variants.ScheduleDays, Variants.GetSimulationDays, Variants.IsPaymentDay and Variants.LastDayOfMonthMeansMonthEnd.
- Variants.SimulateDay: it is tied to the day rule with the payment flag that `IsPaymentDay` computes and the month-end test as written; both are exact only outside years 0-99.
- Simulations.StartDayIsEarliest: it assumes no first ledger entry falls on day 0.
  - The source's loop treats day 0 as "none found yet", and `EarliestFrom` models that as written.
- Simulations.Simulation.RunSimulation: its contract states only `Valid()`, which the replay keeps:
  - ids indexed;
  - fallback registered;
  - chronological lists.

  That no snapshot lies after the day being replayed is a loop invariant, not part of the contract. The final snapshots are not given as a closed formula. The per-transaction effect is stated by `ApplyTransaction`, `Applied`, `AppliedKeepsPast` and `AppliedSetsPresent`.
- The `Simulation` constructor throws without a fallback entity. It is modelled as `Create`, which returns a failure, plus a constructor that requires the fallback.
- EntityUtils.IsEntityActive: it requires `WalkStops`: the entity is muted (frontend/app/features/entity/utils.ts:15-17), the first walk meets a muted ancestor (lines 22-23), or the parent chain ends.
  - The source loops forever only on a cycle of parent links on which no entity is muted; those inputs are left out.
- EntityUtils.SortEntities: it is a permutation only when ids are distinct.
  - With two top-level entities sharing an id, their children are listed twice.
- `includes` in `sortEntities` and `Plan.filter` compares object identity. The model compares values.
- The library `filter` and `sort` calls of `sortEntities` are modelled by their results: `Parents`, and the stable `SortedByRank`.
- `Map` iteration order is insertion order, modelled by the `order` sequence. The data-point map is a plain map, so its order is not kept.
- `getTodayEpochDay` of a plan is the `todayDay` field itself.
