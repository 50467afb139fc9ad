/** The fields every entity shares, its ledger of recorded values, and the
    closed set of entity variants. */
module Entities {
  import opened Wrappers
  import opened Schedules

  /** A recorded value on one day; a missing figure is left alone when the
      entry is replayed as a correction. */
  datatype LedgerEntry = LedgerEntry(
    id: Option<string>,
    day: int,
    amount: Option<real>,
    shareQuantity: Option<real>,
    sharePrice: Option<real>)

  /** A ledger entry as stored; `isDeleted` is only ever read by the forms. */
  datatype SerializedLedgerEntry = SerializedLedgerEntry(
    id: Option<string>,
    day: int,
    amount: Option<real>,
    shareQuantity: Option<real>,
    sharePrice: Option<real>,
    isDeleted: Option<bool>)

  /** The six serialisable variants; the fallback entity has no type tag. */
  datatype EntityType = Account | Debt | Expense | Holding | Income | Possession

  /** The string value of each `EntityType` member. */
  function TypeTag(t: EntityType): string {
    match t
    case Account => "account"
    case Debt => "debt"
    case Expense => "expense"
    case Holding => "holding"
    case Income => "income"
    case Possession => "possession"
  }

  /** The variant-specific fields. */
  datatype Details =
    | AccountDetails(growthRate: real)
    | PossessionDetails(growthRate: real)
    | HoldingDetails(symbol: string, growthRate: real)
    | DebtDetails(interestRate: real, paymentAmount: real, paymentSchedule: Schedule, paymentSourceEntityId: string)
    | IncomeDetails(growthRate: real, schedule: Schedule, targetEntityId: string)
    | ExpenseDetails(growthRate: real, schedule: Schedule, sourceEntityId: string)
    | FallbackDetails

  /** Anything the user tracks and the simulation projects. */
  datatype Entity = Entity(
    id: string,
    name: string,
    templateKey: string,
    parentId: Option<string>,
    ledger: seq<LedgerEntry>,
    details: Details)

  /** The base constructor's argument; the ledger may be left out. */
  datatype EntityInput = EntityInput(
    id: string,
    name: string,
    templateKey: string,
    parentId: Option<string>,
    ledger: Option<seq<LedgerEntry>>)

  /** The base constructor: fields are stored as given and a missing ledger is empty. */
  function NewEntity(input: EntityInput, details: Details): (e: Entity)
    ensures e.id == input.id && e.name == input.name && e.templateKey == input.templateKey
    ensures e.parentId == input.parentId && e.details == details
    ensures input.ledger.None? ==> e.ledger == []
    ensures input.ledger.Some? ==> e.ledger == input.ledger.value
  {
    Entity(input.id, input.name, input.templateKey, input.parentId, input.ledger.GetOr([]), details)
  }

  /** The type tag of a serialisable entity; none for the fallback entity. */
  function TypeOf(d: Details): (t: Option<EntityType>)
    ensures t.None? <==> d.FallbackDetails?
  {
    match d
    case AccountDetails(_) => Some(Account)
    case PossessionDetails(_) => Some(Possession)
    case HoldingDetails(_, _) => Some(Holding)
    case DebtDetails(_, _, _, _) => Some(Debt)
    case IncomeDetails(_, _, _) => Some(Income)
    case ExpenseDetails(_, _, _) => Some(Expense)
    case FallbackDetails => None
  }

  /** `serializeLedger`: each entry's figures copied, nothing marked deleted. */
  function SerializeLedger(ledger: seq<LedgerEntry>): (r: seq<SerializedLedgerEntry>)
    ensures |r| == |ledger|
    ensures forall i :: 0 <= i < |ledger| ==>
              r[i].id == ledger[i].id && r[i].day == ledger[i].day && r[i].amount == ledger[i].amount &&
              r[i].shareQuantity == ledger[i].shareQuantity && r[i].sharePrice == ledger[i].sharePrice &&
              r[i].isDeleted.None?
  {
    seq(|ledger|, i requires 0 <= i < |ledger| =>
      SerializedLedgerEntry(ledger[i].id, ledger[i].day, ledger[i].amount,
                            ledger[i].shareQuantity, ledger[i].sharePrice, None))
  }

  /** Reading a stored ledger back: `isDeleted` is dropped. */
  function DeserializeLedger(entries: seq<SerializedLedgerEntry>): (r: seq<LedgerEntry>)
    ensures |r| == |entries|
    ensures forall i :: 0 <= i < |entries| ==>
              r[i].id == entries[i].id && r[i].day == entries[i].day && r[i].amount == entries[i].amount &&
              r[i].shareQuantity == entries[i].shareQuantity && r[i].sharePrice == entries[i].sharePrice
  {
    seq(|entries|, i requires 0 <= i < |entries| =>
      LedgerEntry(entries[i].id, entries[i].day, entries[i].amount,
                  entries[i].shareQuantity, entries[i].sharePrice))
  }

  /** Reading back a serialised ledger recovers it entry for entry. */
  lemma LedgerRoundTrip(ledger: seq<LedgerEntry>)
    ensures DeserializeLedger(SerializeLedger(ledger)) == ledger
  {
    var r := DeserializeLedger(SerializeLedger(ledger));
    assert forall i :: 0 <= i < |ledger| ==> r[i] == ledger[i];
  }

  /** A serialised entity without its variant data; `parentId` null is `None`. */
  datatype SerializedBase = SerializedBase(
    id: string,
    name: string,
    typeTag: string,
    templateKey: string,
    parentId: Option<string>,
    ledgerEntries: seq<SerializedLedgerEntry>)

  /** `getSerializedBase(type)`. */
  function GetSerializedBase(e: Entity, t: EntityType): (b: SerializedBase)
    ensures b.id == e.id && b.name == e.name && b.templateKey == e.templateKey
    ensures b.typeTag == TypeTag(t)
    ensures b.parentId == e.parentId
    ensures DeserializeLedger(b.ledgerEntries) == e.ledger
  {
    LedgerRoundTrip(e.ledger);
    SerializedBase(e.id, e.name, TypeTag(t), e.templateKey, e.parentId, SerializeLedger(e.ledger))
  }

  /** `getEarliestDay`: the day of the first ledger entry in ledger order, not
      the smallest day, and 0 for an empty ledger. */
  function EarliestDay(e: Entity): (d: int)
    ensures |e.ledger| > 0 ==> d == e.ledger[0].day
    ensures |e.ledger| == 0 ==> d == 0
  {
    if |e.ledger| > 0 then e.ledger[0].day else 0
  }

  /** `FALLBACK_ENTITY_ID`. */
  const FallbackEntityId: string := "__fallback__"

  /** `new FallbackEntity()`: receives the transactions whose target is unknown. */
  function NewFallbackEntity(): (e: Entity)
    ensures e.id == FallbackEntityId && e.name == "Cash" && e.templateKey == "fallback"
    ensures e.parentId.None? && e.ledger == [] && e.details.FallbackDetails?
  {
    NewEntity(EntityInput(FallbackEntityId, "Cash", "fallback", None, None), FallbackDetails)
  }

  /** `parentId` as the truthiness tests read it: absent and empty are alike. */
  predicate HasParent(e: Entity) {
    e.parentId.Some? && e.parentId.value != ""
  }
}
