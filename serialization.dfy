/** Stored entities: each variant's `toSerialized` / `fromSerialized`, and the
    case-insensitive dispatch on the type tag. */
module Serialization {
  import opened Wrappers
  import opened Text
  import opened Schedules
  import opened Entities
  import Collections

  /** A value of the untyped `data` record. */
  datatype Value = Num(n: real) | Str(s: string) | ScheduleValue(schedule: SerializedSchedule)

  /** A stored entity; `parentId` null is `None`. */
  datatype SerializedEntity = SerializedEntity(
    id: string,
    name: string,
    typeTag: string,
    templateKey: string,
    parentId: Option<string>,
    data: map<string, Value>,
    ledgerEntries: seq<SerializedLedgerEntry>)

  /** `{ ...base, data }`. */
  function WithData(b: SerializedBase, data: map<string, Value>): SerializedEntity {
    SerializedEntity(b.id, b.name, b.typeTag, b.templateKey, b.parentId, data, b.ledgerEntries)
  }

  // ---------------------------------------------------------------------------
  // Reading the data record

  /** `(data[key] as number) ?? 0`. */
  function ReadNumber(data: map<string, Value>, key: string): (r: real)
    ensures key in data && data[key].Num? ==> r == data[key].n
    ensures key !in data ==> r == 0.0
  {
    if key in data && data[key].Num? then data[key].n else 0.0
  }

  /** `(data[key] as string) ?? ""`. */
  function ReadString(data: map<string, Value>, key: string): (r: string)
    ensures key in data && data[key].Str? ==> r == data[key].s
    ensures key !in data ==> r == ""
  {
    if key in data && data[key].Str? then data[key].s else ""
  }

  /** The rule used when none is stored: monthly on the 1st, from today. */
  function DefaultSchedule(today: int): SerializedSchedule {
    SerializedSchedule(Some("monthly"), Some([1.0]), None, None, today, None)
  }

  /** The stored rule under `key`, or the default rule when there is none. */
  function ReadSchedule(data: map<string, Value>, key: string, today: int): (r: Result<Schedule>)
    ensures key !in data ==> r == FromSerialized(DefaultSchedule(today))
  {
    if key in data && data[key].ScheduleValue? then FromSerialized(data[key].schedule)
    else FromSerialized(DefaultSchedule(today))
  }

  /** A missing rule reads as the monthly rule on the 1st from today. */
  lemma ReadMissingSchedule(data: map<string, Value>, key: string, today: int)
    requires key !in data
    ensures ReadSchedule(data, key, today) == Success(Schedule(Monthly, Some([1]), None, None, today, None))
  {
    DefaultScheduleValid(today);
  }

  /** The default rule is the stored form of a monthly rule on the 1st. */
  lemma DefaultScheduleStored(today: int)
    ensures DefaultSchedule(today) == Schedules.ToSerialized(Schedule(Monthly, Some([1]), None, None, today, None))
  {
    assert AsReals([1]) == [1.0];
  }

  /** The default rule is a valid monthly rule on the 1st starting today. */
  lemma DefaultScheduleValid(today: int)
    ensures FromSerialized(DefaultSchedule(today)) ==
              Success(Schedule(Monthly, Some([1]), None, None, today, None))
  {
    var s := Schedule(Monthly, Some([1]), None, None, today, None);
    assert WellFormed(s);
    DefaultScheduleStored(today);
    SerializedRoundTrip(s);
  }

  /** The base fields shared by every variant's `fromSerialized`. */
  function BaseInput(data: SerializedEntity): (input: EntityInput)
    ensures input.ledger == Some(DeserializeLedger(data.ledgerEntries))
  {
    EntityInput(data.id, data.name, data.templateKey, data.parentId, Some(DeserializeLedger(data.ledgerEntries)))
  }

  // ---------------------------------------------------------------------------
  // The variants

  function AccountFromSerialized(data: SerializedEntity): (e: Entity)
    ensures TypeOf(e.details) == Some(Account)
  {
    NewEntity(BaseInput(data), AccountDetails(ReadNumber(data.data, "growthRate")))
  }

  function PossessionFromSerialized(data: SerializedEntity): (e: Entity)
    ensures TypeOf(e.details) == Some(Possession)
  {
    NewEntity(BaseInput(data), PossessionDetails(ReadNumber(data.data, "growthRate")))
  }

  function HoldingFromSerialized(data: SerializedEntity): (e: Entity)
    ensures TypeOf(e.details) == Some(Holding)
  {
    NewEntity(BaseInput(data), HoldingDetails(ReadString(data.data, "symbol"), ReadNumber(data.data, "growthRate")))
  }

  /** A debt; a stored payment rule that fails to construct fails the whole
      read, and a missing one is the monthly rule on the 1st from today. */
  function DebtFromSerialized(data: SerializedEntity, today: int): (r: Result<Entity>)
    ensures r.Success? ==> TypeOf(r.value.details) == Some(Debt)
    ensures "paymentSchedule" !in data.data ==>
              r.Success? && r.value.details.paymentSchedule == Schedule(Monthly, Some([1]), None, None, today, None)
  {
    if "paymentSchedule" in data.data then DebtWith(data, ReadSchedule(data.data, "paymentSchedule", today))
    else
      ReadMissingSchedule(data.data, "paymentSchedule", today);
      DebtWith(data, ReadSchedule(data.data, "paymentSchedule", today))
  }

  /** A debt around the outcome of reading its payment rule. */
  function DebtWith(data: SerializedEntity, read: Result<Schedule>): (r: Result<Entity>)
    ensures r.Success? <==> read.Success?
    ensures r.Success? ==> TypeOf(r.value.details) == Some(Debt)
    ensures r.Success? ==> r.value.details.paymentSchedule == read.value
  {
    match read
    case Failure(err) => Failure(err)
    case Success(s) =>
      Success(NewEntity(BaseInput(data),
                        DebtDetails(ReadNumber(data.data, "interestRate"), ReadNumber(data.data, "paymentAmount"),
                                    s, ReadString(data.data, "paymentSourceEntityId"))))
  }

  /** An income; a stored rule that fails to construct fails the whole read,
      and a missing one is the monthly rule on the 1st from today. */
  function IncomeFromSerialized(data: SerializedEntity, today: int): (r: Result<Entity>)
    ensures r.Success? ==> TypeOf(r.value.details) == Some(Income)
    ensures "schedule" !in data.data ==>
              r.Success? && r.value.details.schedule == Schedule(Monthly, Some([1]), None, None, today, None)
  {
    if "schedule" in data.data then IncomeWith(data, ReadSchedule(data.data, "schedule", today))
    else
      ReadMissingSchedule(data.data, "schedule", today);
      IncomeWith(data, ReadSchedule(data.data, "schedule", today))
  }

  /** An income around the outcome of reading its rule. */
  function IncomeWith(data: SerializedEntity, read: Result<Schedule>): (r: Result<Entity>)
    ensures r.Success? <==> read.Success?
    ensures r.Success? ==> TypeOf(r.value.details) == Some(Income)
    ensures r.Success? ==> r.value.details.schedule == read.value
  {
    match read
    case Failure(err) => Failure(err)
    case Success(s) =>
      Success(NewEntity(BaseInput(data),
                        IncomeDetails(ReadNumber(data.data, "growthRate"), s, ReadString(data.data, "targetEntityId"))))
  }

  /** An expense; a stored rule that fails to construct fails the whole read,
      and a missing one is the monthly rule on the 1st from today. */
  function ExpenseFromSerialized(data: SerializedEntity, today: int): (r: Result<Entity>)
    ensures r.Success? ==> TypeOf(r.value.details) == Some(Expense)
    ensures "schedule" !in data.data ==>
              r.Success? && r.value.details.schedule == Schedule(Monthly, Some([1]), None, None, today, None)
  {
    if "schedule" in data.data then ExpenseWith(data, ReadSchedule(data.data, "schedule", today))
    else
      ReadMissingSchedule(data.data, "schedule", today);
      ExpenseWith(data, ReadSchedule(data.data, "schedule", today))
  }

  /** An expense around the outcome of reading its rule. */
  function ExpenseWith(data: SerializedEntity, read: Result<Schedule>): (r: Result<Entity>)
    ensures r.Success? <==> read.Success?
    ensures r.Success? ==> TypeOf(r.value.details) == Some(Expense)
    ensures r.Success? ==> r.value.details.schedule == read.value
  {
    match read
    case Failure(err) => Failure(err)
    case Success(s) =>
      Success(NewEntity(BaseInput(data),
                        ExpenseDetails(ReadNumber(data.data, "growthRate"), s, ReadString(data.data, "sourceEntityId"))))
  }

  /** The `data` record of a debt. */
  function DebtData(r: real, p: real, s: Schedule, src: string): map<string, Value> {
    map["interestRate" := Num(r), "paymentAmount" := Num(p),
        "paymentSchedule" := ScheduleValue(Schedules.ToSerialized(s)), "paymentSourceEntityId" := Str(src)]
  }

  /** The `data` record of an income (`targetEntityId`) or expense (`sourceEntityId`). */
  function FlowData(g: real, s: Schedule, linkKey: string, link: string): map<string, Value> {
    map["growthRate" := Num(g), "schedule" := ScheduleValue(Schedules.ToSerialized(s)), linkKey := Str(link)]
  }

  /** `toSerialized()` of every variant; the fallback entity cannot be stored. */
  function ToSerialized(e: Entity): (r: Result<SerializedEntity>)
    ensures r.Failure? <==> e.details.FallbackDetails?
    ensures r.Success? ==> TypeOf(e.details).Some? && r.value.typeTag == TypeTag(TypeOf(e.details).value)
  {
    match e.details
    case AccountDetails(g) =>
      Success(WithData(GetSerializedBase(e, Account), map["growthRate" := Num(g)]))
    case PossessionDetails(g) =>
      Success(WithData(GetSerializedBase(e, Possession), map["growthRate" := Num(g)]))
    case HoldingDetails(symbol, g) =>
      Success(WithData(GetSerializedBase(e, Holding), map["symbol" := Str(symbol), "growthRate" := Num(g)]))
    case DebtDetails(r, p, s, src) =>
      Success(WithData(GetSerializedBase(e, Debt), DebtData(r, p, s, src)))
    case IncomeDetails(g, s, target) =>
      Success(WithData(GetSerializedBase(e, Income), FlowData(g, s, "targetEntityId", target)))
    case ExpenseDetails(g, s, src) =>
      Success(WithData(GetSerializedBase(e, Expense), FlowData(g, s, "sourceEntityId", src)))
    case FallbackDetails => Failure("FallbackEntity cannot be serialized")
  }

  // ---------------------------------------------------------------------------
  // Dispatch

  /** The variant named by a lower-cased tag, as the `switch` cases read it. */
  function TagOf(tag: string): (r: Option<EntityType>)
    ensures r.Some? ==> TypeTag(r.value) == tag
    ensures r.None? ==> forall t :: tag != TypeTag(t)
  {
    if tag == TypeTag(Account) then Some(Account)
    else if tag == TypeTag(Debt) then Some(Debt)
    else if tag == TypeTag(Expense) then Some(Expense)
    else if tag == TypeTag(Holding) then Some(Holding)
    else if tag == TypeTag(Income) then Some(Income)
    else if tag == TypeTag(Possession) then Some(Possession)
    else None
  }

  /** Every tag names its own variant. */
  lemma TagOfTypeTag(t: EntityType)
    ensures TagOf(TypeTag(t)) == Some(t)
  {
  }

  /** The `fromSerialized` of variant `t`. */
  function FromTag(t: EntityType, data: SerializedEntity, today: int): (r: Result<Entity>)
    ensures r.Success? ==> TypeOf(r.value.details) == Some(t)
  {
    match t
    case Account => Success(AccountFromSerialized(data))
    case Debt => DebtFromSerialized(data, today)
    case Expense => ExpenseFromSerialized(data, today)
    case Holding => Success(HoldingFromSerialized(data))
    case Income => IncomeFromSerialized(data, today)
    case Possession => Success(PossessionFromSerialized(data))
  }

  /** `deserializeEntity`: the lower-cased type tag picks the variant. */
  function DeserializeEntity(data: SerializedEntity, today: int): (r: Result<Entity>)
    ensures r.Success? ==> TypeOf(r.value.details).Some? &&
                           TypeTag(TypeOf(r.value.details).value) == ToLower(data.typeTag)
    ensures (forall t :: ToLower(data.typeTag) != TypeTag(t)) ==>
              r == Failure("Unknown entity type: " + ToLower(data.typeTag))
  {
    var tag := ToLower(data.typeTag);
    match TagOf(tag)
    case Some(t) => FromTag(t, data, today)
    case None => Failure("Unknown entity type: " + tag)
  }

  /** Only the tag's letters matter, not their case: "ACCOUNT" reads as "account". */
  lemma TagIgnoresCase(data: SerializedEntity, today: int)
    ensures DeserializeEntity(data, today) == DeserializeEntity(data.(typeTag := ToLower(data.typeTag)), today)
  {
    ToLowerIdempotent(data.typeTag);
  }

  /** `deserializeEntities`: every element is read in order, and the first
      failure is the result. */
  function DeserializeEntities(list: seq<SerializedEntity>, today: int): (r: Result<seq<Entity>>)
    ensures r.Success? ==> (|r.value| == |list| &&
              forall i :: 0 <= i < |list| ==> DeserializeEntity(list[i], today) == Success(r.value[i]))
    ensures r.Failure? ==> exists i :: 0 <= i < |list| && DeserializeEntity(list[i], today) == Failure(r.error) &&
                                       forall j :: 0 <= j < i ==> DeserializeEntity(list[j], today).Success?
    ensures (forall i :: 0 <= i < |list| ==> DeserializeEntity(list[i], today).Success?) ==> r.Success?
  {
    MapAll(list, d => DeserializeEntity(d, today))
  }

  /** The serialisable entities: every rule they carry is one the constructor accepts. */
  predicate Serialisable(e: Entity) {
    match e.details
    case DebtDetails(_, _, s, _) => WellFormed(s)
    case IncomeDetails(_, s, _) => WellFormed(s)
    case ExpenseDetails(_, s, _) => WellFormed(s)
    case FallbackDetails => false
    case _ => true
  }

  /** The base fields survive a round trip through any variant's record. */
  lemma BaseRoundTrip(e: Entity, t: EntityType, data: map<string, Value>)
    ensures NewEntity(BaseInput(WithData(GetSerializedBase(e, t), data)), e.details) == e
  {
  }

  /** A stored rule reads back as the rule itself. */
  lemma ScheduleRoundTrip(data: map<string, Value>, key: string, s: Schedule, today: int)
    requires WellFormed(s)
    requires key in data && data[key] == ScheduleValue(Schedules.ToSerialized(s))
    ensures ReadSchedule(data, key, today) == Success(s)
  {
    SerializedRoundTrip(s);
  }

  /** A stored account, possession or holding reads back as itself. */
  lemma PlainRoundTrip(e: Entity, today: int)
    requires e.details.AccountDetails? || e.details.PossessionDetails? || e.details.HoldingDetails?
    ensures ToSerialized(e).Success?
    ensures FromTag(TypeOf(e.details).value, ToSerialized(e).value, today) == Success(e)
  {
    BaseRoundTrip(e, TypeOf(e.details).value, ToSerialized(e).value.data);
  }

  /** A debt record around a valid rule reads back with that rule and its figures. */
  lemma DebtReadsBack(b: SerializedBase, r: real, p: real, s: Schedule, src: string, today: int)
    requires WellFormed(s)
    ensures DebtFromSerialized(WithData(b, DebtData(r, p, s, src)), today) ==
            Success(NewEntity(BaseInput(WithData(b, DebtData(r, p, s, src))), DebtDetails(r, p, s, src)))
  {
    ScheduleRoundTrip(DebtData(r, p, s, src), "paymentSchedule", s, today);
  }

  /** A stored debt reads back as itself. */
  lemma DebtRoundTrip(e: Entity, today: int)
    requires e.details.DebtDetails? && WellFormed(e.details.paymentSchedule)
    ensures ToSerialized(e).Success?
    ensures FromTag(Debt, ToSerialized(e).value, today) == Success(e)
  {
    var d := e.details;
    var data := DebtData(d.interestRate, d.paymentAmount, d.paymentSchedule, d.paymentSourceEntityId);
    DebtReadsBack(GetSerializedBase(e, Debt), d.interestRate, d.paymentAmount, d.paymentSchedule,
                  d.paymentSourceEntityId, today);
    BaseRoundTrip(e, Debt, data);
  }

  /** An income record around a valid rule reads back with that rule and its figures. */
  lemma IncomeReadsBack(b: SerializedBase, g: real, s: Schedule, target: string, today: int)
    requires WellFormed(s)
    ensures IncomeFromSerialized(WithData(b, FlowData(g, s, "targetEntityId", target)), today) ==
            Success(NewEntity(BaseInput(WithData(b, FlowData(g, s, "targetEntityId", target))),
                              IncomeDetails(g, s, target)))
  {
    ScheduleRoundTrip(FlowData(g, s, "targetEntityId", target), "schedule", s, today);
  }

  /** An expense record around a valid rule reads back with that rule and its figures. */
  lemma ExpenseReadsBack(b: SerializedBase, g: real, s: Schedule, src: string, today: int)
    requires WellFormed(s)
    ensures ExpenseFromSerialized(WithData(b, FlowData(g, s, "sourceEntityId", src)), today) ==
            Success(NewEntity(BaseInput(WithData(b, FlowData(g, s, "sourceEntityId", src))),
                              ExpenseDetails(g, s, src)))
  {
    ScheduleRoundTrip(FlowData(g, s, "sourceEntityId", src), "schedule", s, today);
  }

  /** A stored income reads back as itself. */
  lemma IncomeRoundTrip(e: Entity, today: int)
    requires e.details.IncomeDetails? && WellFormed(e.details.schedule)
    ensures ToSerialized(e).Success?
    ensures FromTag(Income, ToSerialized(e).value, today) == Success(e)
  {
    var d := e.details;
    var data := FlowData(d.growthRate, d.schedule, "targetEntityId", d.targetEntityId);
    IncomeReadsBack(GetSerializedBase(e, Income), d.growthRate, d.schedule, d.targetEntityId, today);
    BaseRoundTrip(e, Income, data);
  }

  /** A stored expense reads back as itself. */
  lemma ExpenseRoundTrip(e: Entity, today: int)
    requires e.details.ExpenseDetails? && WellFormed(e.details.schedule)
    ensures ToSerialized(e).Success?
    ensures FromTag(Expense, ToSerialized(e).value, today) == Success(e)
  {
    var d := e.details;
    var data := FlowData(d.growthRate, d.schedule, "sourceEntityId", d.sourceEntityId);
    ExpenseReadsBack(GetSerializedBase(e, Expense), d.growthRate, d.schedule, d.sourceEntityId, today);
    BaseRoundTrip(e, Expense, data);
  }

  /** Every tag is already lower case. */
  lemma TypeTagLower(t: EntityType)
    ensures ToLower(TypeTag(t)) == TypeTag(t)
  {
    ToLowerOfLower(TypeTag(t));
  }

  /** Reading back a stored entity gives the same entity: base fields, ledger
      and variant fields alike. */
  lemma EntityRoundTrip(e: Entity, today: int)
    requires Serialisable(e)
    ensures ToSerialized(e).Success?
    ensures DeserializeEntity(ToSerialized(e).value, today) == Success(e)
  {
    var t := TypeOf(e.details).value;
    TypeTagLower(t);
    TagOfTypeTag(t);
    if e.details.DebtDetails? {
      DebtRoundTrip(e, today);
    } else if e.details.IncomeDetails? {
      IncomeRoundTrip(e, today);
    } else if e.details.ExpenseDetails? {
      ExpenseRoundTrip(e, today);
    } else {
      PlainRoundTrip(e, today);
    }
  }
}
