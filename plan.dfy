/** A plan: scenario metadata, the entities of the scenario, and a projection
    of them that is run at most once and then queried. */
module Plans {
  import opened Wrappers
  import opened DateUtils
  import opened Entities
  import opened Simulations
  import Serialization

  /** `YEARS_PAST_RETIREMENT`: the projection runs this many years past the
      retirement age. */
  const YearsPastRetirement: int := 15

  /** `PlanInput`; `entities` and `todayEpochDay` may be left out. */
  datatype PlanInput = PlanInput(
    id: string,
    name: string,
    birthDate: string,
    retirementAge: int,
    entities: Option<seq<Entity>>,
    todayEpochDay: Option<int>)

  /** `SerializedPlan`: the metadata with the serialized entities. */
  datatype SerializedPlan = SerializedPlan(id: string, name: string, birthDate: string, retirementAge: int,
                                           entities: seq<Serialization.SerializedEntity>)

  /** `SerializedPlanSummary`: the metadata, without the entities. */
  datatype PlanSummary = PlanSummary(id: string, name: string, birthDate: string, retirementAge: int)

  /** The fields `withUpdates` may replace; a missing field is kept. */
  datatype PlanUpdates = PlanUpdates(name: Option<string>, birthDate: Option<string>, retirementAge: Option<int>)

  /** The age `calculateAge` computes for a (non-optional) birth date string. */
  function AgeFor(birthDate: string, today: int): int {
    if birthDate == "" then EpochDayToDate(today).year - 1990
    else AgeOn(ParseDateString(birthDate), EpochDayToDate(today))
  }

  /** The number of projected years: up to `YEARS_PAST_RETIREMENT` years past
      the retirement age, and never less than one. */
  function ProjectionYears(retirementAge: int, currentAge: int): (years: int)
    ensures years >= 1 && years >= retirementAge + YearsPastRetirement - currentAge
    ensures years == 1 || years == retirementAge + YearsPastRetirement - currentAge
  {
    var target := retirementAge + YearsPastRetirement;
    if target - currentAge > 1 then target - currentAge else 1
  }

  /** A plan past its target age still projects one year, and one that has
      not reached it projects exactly the years left. */
  lemma ProjectionReachesTarget(retirementAge: int, currentAge: int)
    ensures currentAge >= retirementAge + YearsPastRetirement ==> ProjectionYears(retirementAge, currentAge) == 1
    ensures currentAge < retirementAge + YearsPastRetirement ==>
              currentAge + ProjectionYears(retirementAge, currentAge) == retirementAge + YearsPastRetirement
  {
  }

  /** `getRetirementDay`: the birthday in the year the retirement age is reached. */
  function RetirementDay(birthDate: string, retirementAge: int): int {
    var d := ParseDateString(birthDate);
    CreateEpochDay(d.year + retirementAge, d.month, d.day)
  }

  /** Whatever birth date string is stored, the retirement day is the parsed
      birthday in the year the retirement age is reached, whenever that
      anniversary exists (from year 100 on, where `Date.UTC` keeps the year). */
  lemma RetirementDayIsAnniversary(birthDate: string, retirementAge: int)
    requires var b := ParseDateString(birthDate);
             ValidDate(Date(b.year + retirementAge, b.month, b.day)) && b.year + retirementAge >= 100
    ensures var b := ParseDateString(birthDate);
            EpochDayToDate(RetirementDay(birthDate, retirementAge)) == Date(b.year + retirementAge, b.month, b.day)
  {
    var b := ParseDateString(birthDate);
    CreateEpochDayRoundTrip(Date(b.year + retirementAge, b.month, b.day));
  }

  /** For a birth date written by `formatDateString`, that is the birth date's
      own anniversary. */
  lemma RetirementDayOfFormatted(birth: Date, retirementAge: int)
    requires ValidDate(birth) && birth.year >= 1
    requires ValidDate(Date(birth.year + retirementAge, birth.month, birth.day))
    requires birth.year + retirementAge >= 100
    ensures EpochDayToDate(RetirementDay(FormatDateString(birth), retirementAge)) ==
            Date(birth.year + retirementAge, birth.month, birth.day)
  {
    ParseFormatted(birth);
    RetirementDayIsAnniversary(FormatDateString(birth), retirementAge);
  }

  /** The first entity with id `id`. */
  function FindById(es: seq<Entity>, id: string): (r: Option<Entity>)
    ensures r.None? <==> forall i :: 0 <= i < |es| ==> es[i].id != id
    ensures r.Some? ==> exists i :: 0 <= i < |es| && es[i] == r.value && r.value.id == id &&
                                    forall j :: 0 <= j < i ==> es[j].id != id
  {
    if es == [] then None
    else if es[0].id == id then Some(es[0])
    else
      assert forall j :: 1 <= j < |es| ==> es[j] == es[1..][j - 1];
      FindById(es[1..], id)
  }

  /** `entities.filter(e => active.includes(e))`: the entities of `es` that
      are listed in `active`, in the order of `es`. */
  function KeepListed(es: seq<Entity>, active: seq<Entity>): (r: seq<Entity>)
    ensures forall x :: x in r <==> x in es && x in active
    ensures |r| <= |es|
  {
    if es == [] then []
    else
      var x := es[|es| - 1];
      assert forall y :: y in es <==> y in es[..|es| - 1] || y == x;
      KeepListed(es[..|es| - 1], active) + (if x in active then [x] else [])
  }

  /** Keeping the entities listed in the list itself changes nothing. */
  lemma KeepAllListed(es: seq<Entity>)
    ensures KeepListed(es, es) == es
  {
    assert forall k :: 0 <= k < |es| ==> es[k] in es;
    KeepListedWithin(es, es);
  }

  /** Filtering by a list that holds every entity of `es` keeps all of `es`. */
  lemma {:induction false} KeepListedWithin(es: seq<Entity>, active: seq<Entity>)
    requires forall k :: 0 <= k < |es| ==> es[k] in active
    ensures KeepListed(es, active) == es
  {
    if es != [] {
      var front, x := es[..|es| - 1], es[|es| - 1];
      assert forall k :: 0 <= k < |front| ==> front[k] == es[k];
      KeepListedWithin(front, active);
      assert KeepListed(es, active) == front + [x];
      assert front + [x] == es;
    }
  }

  /** Filtering twice by the same list is filtering once. */
  lemma KeepListedTwice(es: seq<Entity>, active: seq<Entity>)
    ensures KeepListed(KeepListed(es, active), active) == KeepListed(es, active)
  {
    var r := KeepListed(es, active);
    assert forall k :: 0 <= k < |r| ==> r[k] in r;
    KeepListedWithin(r, active);
  }

  /** What `getEntityDisplayValue` shows for an Income or Expense entity: the
      amount of its last ledger entry, or 0. */
  function LastAmount(e: Entity): (v: real)
    ensures e.ledger == [] ==> v == 0.0
    ensures e.ledger != [] && e.ledger[|e.ledger| - 1].amount.Some? ==> v == e.ledger[|e.ledger| - 1].amount.value
    ensures e.ledger != [] && e.ledger[|e.ledger| - 1].amount.None? ==> v == 0.0
  {
    if e.ledger == [] then 0.0 else e.ledger[|e.ledger| - 1].amount.GetOr(0.0)
  }

  class Plan {
    const id: string
    const name: string
    const birthDate: string
    const retirementAge: int
    const entities: seq<Entity>
    /** The epoch day of "today" the plan was made with. */
    const todayDay: int
    /** The projection, once `Simulate` has run. */
    var simulation: Option<Simulation>

    /** The objects the plan's queries read. */
    ghost function Repr(): set<object>
      reads this
    {
      if simulation.Some? then {simulation.value} else {}
    }

    /** A projection, when there is one, is well indexed and its memo of data
        points is empty or complete. */
    ghost predicate Valid()
      reads this, Repr()
    {
      simulation.Some? ==> simulation.value.Valid() && simulation.value.PointsValid()
    }

    /** `new Plan(input)`; `clockToday` is the day `getTodayEpochDay()` reads
        from the clock, used when the input names no day. */
    constructor (input: PlanInput, clockToday: int)
      ensures Valid() && simulation.None?
      ensures id == input.id && name == input.name && birthDate == input.birthDate
      ensures retirementAge == input.retirementAge
      ensures entities == input.entities.GetOr([])
      ensures todayDay == input.todayEpochDay.GetOr(clockToday)
    {
      id := input.id;
      name := input.name;
      birthDate := input.birthDate;
      retirementAge := input.retirementAge;
      entities := input.entities.GetOr([]);
      todayDay := input.todayEpochDay.GetOr(clockToday);
      simulation := None;
    }

    /** `Plan.fromSerialized`: the entities are read in order and the first
        one that cannot be read fails the whole plan; `clockToday` also dates
        the default payment rule of an entity stored without one. */
    static method FromSerialized(data: SerializedPlan, todayEpochDay: Option<int>, clockToday: int)
      returns (r: Result<Plan>)
      ensures r.Failure? <==> Serialization.DeserializeEntities(data.entities, clockToday).Failure?
      ensures r.Failure? ==> r.error == Serialization.DeserializeEntities(data.entities, clockToday).error
      ensures r.Success? ==>
                fresh(r.value) && r.value.Valid() && r.value.simulation.None? &&
                r.value.id == data.id && r.value.name == data.name && r.value.birthDate == data.birthDate &&
                r.value.retirementAge == data.retirementAge &&
                r.value.entities == Serialization.DeserializeEntities(data.entities, clockToday).value &&
                r.value.todayDay == todayEpochDay.GetOr(clockToday)
    {
      var read := Serialization.DeserializeEntities(data.entities, clockToday);
      if read.Failure? {
        return Failure(read.error);
      }
      var p := new Plan(PlanInput(data.id, data.name, data.birthDate, data.retirementAge,
                                  Some(read.value), todayEpochDay), clockToday);
      return Success(p);
    }

    /** `toSerialized`: the metadata only. */
    function ToSerialized(): (s: PlanSummary)
      ensures s.id == id && s.name == name && s.birthDate == birthDate && s.retirementAge == retirementAge
    {
      PlanSummary(id, name, birthDate, retirementAge)
    }

    /** The list the projection is built from: the fallback entity first,
        then the plan's entities in order. */
    function SimulatedEntities(): (list: seq<Entity>)
      ensures |list| == |entities| + 1 && list[0] == NewFallbackEntity() && list[1..] == entities
    {
      [NewFallbackEntity()] + entities
    }

    /** The projection `simulate()` builds: the fallback entity first, then
        the plan's entities, over the years up to the target age. */
    static method Project(list: seq<Entity>, birthDate: string, retirementAge: int, today: int,
                          pow: (real, real) -> real)
      returns (s: Simulation)
      ensures fresh(s) && s.Valid() && s.PointsValid()
      ensures s.order == IdOrder([NewFallbackEntity()] + list)
      ensures s.entities == EntitiesById([NewFallbackEntity()] + list)
      ensures s.fallback == NewFallbackEntity()
      ensures s.startDay == StartDay([NewFallbackEntity()] + list, today)
      ensures s.endDay == s.startDay + ProjectionYears(retirementAge, AgeFor(birthDate, today)) * 365
    {
      var entities := [NewFallbackEntity()] + list;
      var currentAge := CalculateAge(Some(birthDate), today);
      var targetAge := retirementAge + YearsPastRetirement;
      var projectionYears := if 1 < targetAge - currentAge then targetAge - currentAge else 1;
      assert entities[0].details.FallbackDetails?;
      var created := Simulation.Create(entities, projectionYears, today, pow);
      s := created.value;
    }

    /** `simulate()`: builds the projection the first time; later calls keep it.
        `pow` is `Math.pow`. */
    method Simulate(pow: (real, real) -> real) returns (self: Plan)
      requires Valid()
      modifies this`simulation
      ensures self == this && Valid() && simulation.Some?
      ensures old(simulation).Some? ==> simulation == old(simulation)
      ensures old(simulation).None? ==>
                fresh(simulation.value) &&
                simulation.value.order == IdOrder(SimulatedEntities()) &&
                simulation.value.entities == EntitiesById(SimulatedEntities()) &&
                simulation.value.fallback == NewFallbackEntity() &&
                simulation.value.startDay == StartDay(SimulatedEntities(), todayDay) &&
                simulation.value.endDay == simulation.value.startDay +
                  ProjectionYears(retirementAge, AgeFor(birthDate, todayDay)) * 365
    {
      if simulation.Some? {
        return this;
      }
      var s := Project(entities, birthDate, retirementAge, todayDay, pow);
      simulation := Some(s);
      return this;
    }

    /** `filter(activeEntities)`: a new, unsimulated plan with the listed
        entities only, in plan order, and the same metadata and day. */
    method Filter(active: seq<Entity>) returns (p: Plan)
      ensures fresh(p) && p.Valid() && p.simulation.None?
      ensures p.id == id && p.name == name && p.birthDate == birthDate && p.retirementAge == retirementAge
      ensures p.todayDay == todayDay
      ensures p.entities == KeepListed(entities, active)
    {
      p := new Plan(PlanInput(id, name, birthDate, retirementAge, Some(KeepListed(entities, active)), Some(todayDay)), todayDay);
    }

    /** `withUpdates(updates)`: a new, unsimulated plan with the supplied
        fields replaced; the id, the entities and the day are kept. */
    method WithUpdates(updates: PlanUpdates) returns (p: Plan)
      ensures fresh(p) && p.Valid() && p.simulation.None?
      ensures p.id == id && p.entities == entities && p.todayDay == todayDay
      ensures p.name == updates.name.GetOr(name)
      ensures p.birthDate == updates.birthDate.GetOr(birthDate)
      ensures p.retirementAge == updates.retirementAge.GetOr(retirementAge)
    {
      p := new Plan(PlanInput(id, updates.name.GetOr(name), updates.birthDate.GetOr(birthDate),
                              updates.retirementAge.GetOr(retirementAge), Some(entities), Some(todayDay)), todayDay);
    }

    /** `getSimulationStartDay`: 0 before `simulate()`. */
    function GetSimulationStartDay(): (d: int)
      reads this
      ensures simulation.None? ==> d == 0
      ensures simulation.Some? ==> d == simulation.value.startDay
    {
      if simulation.Some? then simulation.value.startDay else 0
    }

    /** `getSimulationEndDay`: 0 before `simulate()`. */
    function GetSimulationEndDay(): (d: int)
      reads this
      ensures simulation.None? ==> d == 0
      ensures simulation.Some? ==> d == simulation.value.endDay
    {
      if simulation.Some? then simulation.value.endDay else 0
    }

    /** `getRetirementDay`. */
    function GetRetirementDay(): (d: int)
      ensures d == RetirementDay(birthDate, retirementAge)
    {
      RetirementDay(birthDate, retirementAge)
    }

    /** `getDataPointsForAllYears`: none before `simulate()`; afterwards the
        year-end totals of every year of the projection, computed once. */
    method GetDataPointsForAllYears() returns (points: map<int, DataPoint>)
      requires Valid()
      modifies Repr()
      ensures Valid() && simulation == old(simulation)
      ensures simulation.None? ==> points == map[]
      ensures simulation.Some? ==> simulation.value.PointsSound(points) && simulation.value.PointsComplete(points)
    {
      if simulation.None? {
        return map[];
      }
      points := simulation.value.GetDataPointsForAllYears();
    }

    /** The assets on `day`; 0 before `simulate()`. */
    method AssetsOn(day: int) returns (v: real)
      ensures simulation.None? ==> v == 0.0
      ensures simulation.Some? ==> v == PositiveSum(simulation.value.ValuesOf(simulation.value.order, day))
    {
      if simulation.None? {
        return 0.0;
      }
      v := simulation.value.GetAssets(day);
    }

    /** The debt on `day`; 0 before `simulate()`. */
    method DebtOn(day: int) returns (v: real)
      ensures simulation.None? ==> v == 0.0
      ensures simulation.Some? ==> v == NegativeSum(simulation.value.ValuesOf(simulation.value.order, day))
    {
      if simulation.None? {
        return 0.0;
      }
      v := simulation.value.GetDebt(day);
    }

    /** The net worth on `day`; 0 before `simulate()`. */
    method NetWorthOn(day: int) returns (v: real)
      ensures simulation.None? ==> v == 0.0
      ensures simulation.Some? ==> v == Sum(simulation.value.ValuesOf(simulation.value.order, day))
    {
      if simulation.None? {
        return 0.0;
      }
      v := simulation.value.GetNetWorth(day);
    }

    /** `getAssetsForToday`. */
    method GetAssetsForToday() returns (v: real)
      ensures simulation.None? ==> v == 0.0
      ensures simulation.Some? ==> v == PositiveSum(simulation.value.ValuesOf(simulation.value.order, todayDay))
    {
      v := AssetsOn(todayDay);
    }

    /** `getAssetsForLastYear`: 365 days before today. */
    method GetAssetsForLastYear() returns (v: real)
      ensures simulation.None? ==> v == 0.0
      ensures simulation.Some? ==> v == PositiveSum(simulation.value.ValuesOf(simulation.value.order, todayDay - 365))
    {
      v := AssetsOn(todayDay - 365);
    }

    /** `getDebtForToday`. */
    method GetDebtForToday() returns (v: real)
      ensures simulation.None? ==> v == 0.0
      ensures simulation.Some? ==> v == NegativeSum(simulation.value.ValuesOf(simulation.value.order, todayDay))
    {
      v := DebtOn(todayDay);
    }

    /** `getDebtForLastYear`: 365 days before today. */
    method GetDebtForLastYear() returns (v: real)
      ensures simulation.None? ==> v == 0.0
      ensures simulation.Some? ==> v == NegativeSum(simulation.value.ValuesOf(simulation.value.order, todayDay - 365))
    {
      v := DebtOn(todayDay - 365);
    }

    /** `getNetWorthForToday`. */
    method GetNetWorthForToday() returns (v: real)
      ensures simulation.None? ==> v == 0.0
      ensures simulation.Some? ==> v == Sum(simulation.value.ValuesOf(simulation.value.order, todayDay))
    {
      v := NetWorthOn(todayDay);
    }

    /** `getNetWorthForLastYear`: 365 days before today. */
    method GetNetWorthForLastYear() returns (v: real)
      ensures simulation.None? ==> v == 0.0
      ensures simulation.Some? ==> v == Sum(simulation.value.ValuesOf(simulation.value.order, todayDay - 365))
    {
      v := NetWorthOn(todayDay - 365);
    }

    /** `getEntityValue`: the entity's projected value today; 0 before `simulate()`. */
    method GetEntityValue(e: Entity) returns (v: real)
      ensures simulation.None? ==> v == 0.0
      ensures simulation.Some? ==> v == simulation.value.EntityValue(e.id, todayDay)
    {
      if simulation.None? {
        return 0.0;
      }
      v := simulation.value.GetEntityValueForDay(e.id, todayDay);
    }

    /** `getEntityDisplayValue`: 0 for an id the plan does not hold; the last
        recorded amount for an Income or Expense entity; otherwise the
        projected value today. */
    method GetEntityDisplayValue(entityId: string) returns (v: real)
      ensures FindById(entities, entityId).None? ==> v == 0.0
      ensures FindById(entities, entityId).Some? ==>
                var e := FindById(entities, entityId).value;
                if e.details.IncomeDetails? || e.details.ExpenseDetails? then v == LastAmount(e)
                else if simulation.None? then v == 0.0
                else v == simulation.value.EntityValue(e.id, todayDay)
    {
      var found := FindById(entities, entityId);
      if found.None? {
        return 0.0;
      }
      var e := found.value;
      if e.details.IncomeDetails? || e.details.ExpenseDetails? {
        return LastAmount(e);
      }
      v := GetEntityValue(e);
    }
  }
}
