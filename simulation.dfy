/** The simulation engine: every entity's snapshots over the projection window,
    built by replaying, day by day in ascending order, the transactions the
    entities emit; and the yearly totals read off those snapshots. */
module Simulations {
  import opened Wrappers
  import opened Collections
  import opened DateUtils
  import opened Values
  import opened Entities
  import opened Variants

  /** One year's totals. */
  datatype DataPoint = DataPoint(assets: real, debt: real, netWorth: real)

  // ---------------------------------------------------------------------------
  // One entity's snapshots

  /** Snapshot days strictly increase along the list. */
  predicate Chronological(s: seq<Snapshot>) {
    forall i, j :: 0 <= i < j < |s| ==> s[i].day < s[j].day
  }

  /** The snapshot a transaction produces from the last one, or from zeros when
      there is none: a correction overwrites the figures it carries, a delta
      adds them. */
  function NextSnapshot(s: seq<Snapshot>, tx: Transaction): (n: Snapshot)
    ensures n.day == tx.day
  {
    var amount := if |s| > 0 then s[|s| - 1].amount else 0.0;
    var quantity := if |s| > 0 then s[|s| - 1].shareQuantity else 0.0;
    var price := if |s| > 0 then s[|s| - 1].sharePrice else 0.0;
    if tx.isCorrection then
      NewSnapshot(SnapshotInput(tx.day, Some(tx.amount.GetOr(amount)), Some(tx.shareQuantity.GetOr(quantity)),
                                Some(tx.sharePrice.GetOr(price))))
    else
      NewSnapshot(SnapshotInput(tx.day, Some(amount + tx.amount.GetOr(0.0)), Some(quantity + tx.shareQuantity.GetOr(0.0)),
                                Some(price + tx.sharePrice.GetOr(0.0))))
  }

  /** The target's list after one transaction: refused when the transaction is
      older than the last snapshot, the last snapshot replaced when it is of the
      same day, and the new snapshot appended otherwise. */
  function Applied(s: seq<Snapshot>, tx: Transaction): (r: Result<seq<Snapshot>>)
    ensures r.Failure? <==> |s| > 0 && tx.day < s[|s| - 1].day
    ensures r.Failure? ==> r.error == "Transaction applied out of order"
    ensures r.Success? ==> |r.value| > 0 && r.value[|r.value| - 1] == NextSnapshot(s, tx)
    ensures r.Success? && |s| > 0 && s[|s| - 1].day == tx.day ==> r.value[..|r.value| - 1] == s[..|s| - 1]
    ensures r.Success? && !(|s| > 0 && s[|s| - 1].day == tx.day) ==> r.value[..|r.value| - 1] == s
    ensures r.Success? && Chronological(s) ==> Chronological(r.value)
  {
    if |s| > 0 && tx.day < s[|s| - 1].day then Failure("Transaction applied out of order")
    else if |s| > 0 && s[|s| - 1].day == tx.day then Success(s[..|s| - 1] + [NextSnapshot(s, tx)])
    else Success(s + [NextSnapshot(s, tx)])
  }

  /** The value on `day`: that of the last snapshot, in list order, dated on or
      before it; 0 when there is none. */
  function ValueOn(s: seq<Snapshot>, day: int): (v: real)
    ensures (forall i :: 0 <= i < |s| ==> s[i].day > day) ==> v == 0.0
  {
    if s == [] then 0.0
    else if s[|s| - 1].day <= day then s[|s| - 1].Value()
    else ValueOn(s[..|s| - 1], day)
  }

  /** On a chronological list the value on `day` is that of the latest snapshot
      on or before `day`. */
  lemma {:induction false} ValueOnLatest(s: seq<Snapshot>, day: int, k: int)
    requires Chronological(s)
    requires 0 <= k < |s| && s[k].day <= day
    requires k + 1 == |s| || s[k + 1].day > day
    ensures ValueOn(s, day) == s[k].Value()
    decreases |s|
  {
    if k + 1 < |s| {
      ValueOnLatest(s[..|s| - 1], day, k);
    }
  }

  /** Once every snapshot is on or before `day`, the value on `day` is the last
      snapshot's, which is what the entities read as their current value. */
  lemma ValueOnLast(s: seq<Snapshot>, day: int)
    requires forall i :: 0 <= i < |s| ==> s[i].day <= day
    ensures ValueOn(s, day) == LastValue(s)
  {
  }

  /** A transaction never changes the values of the days before its own. */
  lemma {:induction false} AppliedKeepsPast(s: seq<Snapshot>, tx: Transaction, day: int)
    requires Applied(s, tx).Success?
    requires day < tx.day
    ensures ValueOn(Applied(s, tx).value, day) == ValueOn(s, day)
  {
    var r := Applied(s, tx).value;
    assert ValueOn(r, day) == ValueOn(r[..|r| - 1], day);
  }

  /** From its own day on, the value is the new snapshot's. */
  lemma AppliedSetsPresent(s: seq<Snapshot>, tx: Transaction, day: int)
    requires Applied(s, tx).Success?
    requires tx.day <= day
    ensures ValueOn(Applied(s, tx).value, day) == NextSnapshot(s, tx).Value()
  {
  }

  /** Two deltas of the same day give the same list in either order, so the
      order in which entities are simulated within one day does not matter
      to the deltas they emit. */
  lemma DeltasCommute(s: seq<Snapshot>, a: Transaction, b: Transaction)
    requires !a.isCorrection && !b.isCorrection && a.day == b.day
    requires Applied(s, a).Success?
    ensures Applied(Applied(s, a).value, b).Success? && Applied(Applied(s, b).value, a).Success?
    ensures Applied(Applied(s, a).value, b).value == Applied(Applied(s, b).value, a).value
  {
    var ra, rb := Applied(s, a).value, Applied(s, b).value;
    assert ra[..|ra| - 1] == rb[..|rb| - 1];
    var na, nb := NextSnapshot(ra, b), NextSnapshot(rb, a);
    assert na == nb;
  }

  /** Replaying the same correction on its own day changes nothing more. */
  lemma CorrectionIdempotent(s: seq<Snapshot>, tx: Transaction)
    requires tx.isCorrection
    requires Applied(s, tx).Success?
    ensures Applied(Applied(s, tx).value, tx) == Applied(s, tx)
  {
    var r := Applied(s, tx).value;
    assert NextSnapshot(r, tx) == NextSnapshot(s, tx);
    assert r[..|r| - 1] + [NextSnapshot(r, tx)] == r;
  }

  /** A correction carrying every figure sets the snapshot whatever came before. */
  lemma FullCorrectionForgets(s1: seq<Snapshot>, s2: seq<Snapshot>, tx: Transaction)
    requires tx.isCorrection && tx.amount.Some? && tx.shareQuantity.Some? && tx.sharePrice.Some?
    ensures NextSnapshot(s1, tx) == NextSnapshot(s2, tx)
    ensures NextSnapshot(s1, tx) == Snapshot(tx.day, tx.amount.value, tx.shareQuantity.value, tx.sharePrice.value)
  {
  }

  // ---------------------------------------------------------------------------
  // Totals

  /** The sum of the positive values. */
  function PositiveSum(vs: seq<real>): (r: real)
    ensures r >= 0.0
  {
    if vs == [] then 0.0
    else PositiveSum(vs[..|vs| - 1]) + (if vs[|vs| - 1] > 0.0 then vs[|vs| - 1] else 0.0)
  }

  /** The sum of the magnitudes of the negative values. */
  function NegativeSum(vs: seq<real>): (r: real)
    ensures r >= 0.0
  {
    if vs == [] then 0.0
    else NegativeSum(vs[..|vs| - 1]) + (if vs[|vs| - 1] < 0.0 then -vs[|vs| - 1] else 0.0)
  }

  function Sum(vs: seq<real>): real {
    if vs == [] then 0.0 else Sum(vs[..|vs| - 1]) + vs[|vs| - 1]
  }

  /** Net worth, assets less debt, is the plain sum of all values. */
  lemma {:induction false} NetWorthIsSum(vs: seq<real>)
    ensures PositiveSum(vs) - NegativeSum(vs) == Sum(vs)
  {
    if vs != [] {
      NetWorthIsSum(vs[..|vs| - 1]);
    }
  }

  /** `Math.abs`. */
  function Abs(x: real): (r: real)
    ensures r >= 0.0 && (r == x || r == -x)
  {
    if x < 0.0 then -x else x
  }

  // ---------------------------------------------------------------------------
  // Construction

  /** The ids of the list, in list order. */
  function Ids(list: seq<Entity>): (ids: seq<string>)
    ensures |ids| == |list|
    ensures forall i :: 0 <= i < |list| ==> ids[i] == list[i].id
  {
    seq(|list|, i requires 0 <= i < |list| => list[i].id)
  }

  /** The entities by id; a later entity replaces an earlier one with its id,
      so the last entity of the list is always the one under its id. */
  function EntitiesById(list: seq<Entity>): (m: map<string, Entity>)
    ensures forall id :: id in m <==> id in Ids(list)
    ensures forall id :: id in m ==> m[id].id == id
    ensures list != [] ==> m[list[|list| - 1].id] == list[|list| - 1]
  {
    if list == [] then map[]
    else
      var front := EntitiesById(list[..|list| - 1]);
      assert Ids(list) == Ids(list[..|list| - 1]) + [list[|list| - 1].id];
      front[list[|list| - 1].id := list[|list| - 1]]
  }

  /** The ids in the order a `Map` keeps them: first insertion. */
  function IdOrder(list: seq<Entity>): (order: seq<string>)
    ensures forall i, j :: 0 <= i < j < |order| ==> order[i] != order[j]
    ensures forall id :: id in order <==> id in Ids(list)
  {
    if list == [] then []
    else
      var front := IdOrder(list[..|list| - 1]);
      assert Ids(list) == Ids(list[..|list| - 1]) + [list[|list| - 1].id];
      if list[|list| - 1].id in front then front else front + [list[|list| - 1].id]
  }

  /** The first loop of the constructor: every entity registered under its id. */
  method IndexEntities(list: seq<Entity>) returns (order: seq<string>, byId: map<string, Entity>)
    ensures order == IdOrder(list) && byId == EntitiesById(list)
  {
    order, byId := [], map[];
    for i := 0 to |list|
      invariant order == IdOrder(list[..i]) && byId == EntitiesById(list[..i])
    {
      assert list[..i + 1][..i] == list[..i];
      if list[i].id !in order {
        order := order + [list[i].id];
      }
      byId := byId[list[i].id := list[i]];
    }
    assert list[..|list|] == list;
  }

  /** Ids are the map keys, in one order without repeats, the fallback is
      registered, and every entity has a chronological list of snapshots. */
  ghost predicate WellIndexed(order: seq<string>, entities: map<string, Entity>, fallbackId: string,
                        snapshots: map<string, seq<Snapshot>>)
  {
    fallbackId in entities &&
    (forall id :: id in entities ==> entities[id].id == id) &&
    (forall id :: id in order <==> id in entities) &&
    (forall i, j :: 0 <= i < j < |order| ==> order[i] != order[j]) &&
    snapshots.Keys == entities.Keys &&
    (forall id :: id in snapshots ==> Chronological(snapshots[id]))
  }

  /** The state the constructor builds before running is well indexed. */
  lemma InitiallyIndexed(list: seq<Entity>, fallbackId: string)
    requires fallbackId in EntitiesById(list)
    ensures WellIndexed(IdOrder(list), EntitiesById(list), fallbackId, NoSnapshots(EntitiesById(list)))
  {
    var order, byId := IdOrder(list), EntitiesById(list);
    var snapshots := NoSnapshots(byId);
    assert forall id :: id in byId ==> byId[id].id == id;
    assert forall id :: id in order <==> id in byId;
    assert forall i, j :: 0 <= i < j < |order| ==> order[i] != order[j];
    assert snapshots.Keys == byId.Keys;
    assert forall id :: id in snapshots ==> Chronological(snapshots[id]);
  }

  /** The fallback entity found in the list is registered under its id. */
  lemma FallbackRegistered(list: seq<Entity>, fb: Entity)
    requires FindFallback(list) == Some(fb)
    ensures fb.id in EntitiesById(list)
  {
    var j :| 0 <= j < |list| && list[j] == fb;
    assert Ids(list)[j] == fb.id;
  }

  /** Replacing one entity's list by a chronological one keeps the index well formed. */
  lemma StoreKeepsIndexed(order: seq<string>, entities: map<string, Entity>, fallbackId: string,
                          snapshots: map<string, seq<Snapshot>>, id: string, list: seq<Snapshot>)
    requires WellIndexed(order, entities, fallbackId, snapshots)
    requires id in snapshots && Chronological(list)
    ensures WellIndexed(order, entities, fallbackId, snapshots[id := list])
  {
  }

  /** No snapshot is later than `day`. */
  ghost predicate AllUpTo(snapshots: map<string, seq<Snapshot>>, day: int) {
    forall id, i :: id in snapshots && 0 <= i < |snapshots[id]| ==> snapshots[id][i].day <= day
  }

  /** Storing a list whose days are on or before `day` keeps every snapshot on
      or before `day`. */
  lemma StoreKeepsUpTo(snapshots: map<string, seq<Snapshot>>, id: string, list: seq<Snapshot>, day: int)
    requires AllUpTo(snapshots, day)
    requires forall i :: 0 <= i < |list| ==> list[i].day <= day
    ensures AllUpTo(snapshots[id := list], day)
  {
  }

  /** When no snapshot is later than a transaction, neither is any snapshot of
      the target's list after it. */
  lemma AppliedUpTo(snapshots: map<string, seq<Snapshot>>, t: Transaction, updated: seq<Snapshot>)
    requires AllUpTo(snapshots, t.day) && t.targetEntityId in snapshots
    requires Applied(snapshots[t.targetEntityId], t) == Success(updated)
    ensures forall i :: 0 <= i < |updated| ==> updated[i].day <= t.day
  {
    var list := snapshots[t.targetEntityId];
    assert forall i :: 0 <= i < |list| ==> list[i].day <= t.day;
    assert forall i :: 0 <= i < |updated| - 1 ==> updated[i] == updated[..|updated| - 1][i];
  }

  /** Lines 166-191 of `applyTransaction`: the figures carried forward from the
      last snapshot, or zeros, updated by the transaction. */
  method CarryForward(list: seq<Snapshot>, t: Transaction) returns (next: Snapshot)
    ensures next == NextSnapshot(list, t)
  {
    var amount, quantity, price := 0.0, 0.0, 0.0;
    if |list| > 0 {
      amount, quantity, price := list[|list| - 1].amount, list[|list| - 1].shareQuantity, list[|list| - 1].sharePrice;
    }
    if t.isCorrection {
      if t.amount.Some? {
        amount := t.amount.value;
      }
      if t.shareQuantity.Some? {
        quantity := t.shareQuantity.value;
      }
      if t.sharePrice.Some? {
        price := t.sharePrice.value;
      }
    } else {
      amount := amount + t.amount.GetOr(0.0);
      quantity := quantity + t.shareQuantity.GetOr(0.0);
      price := price + t.sharePrice.GetOr(0.0);
    }
    next := NewSnapshot(SnapshotInput(t.day, Some(amount), Some(quantity), Some(price)));
  }

  /** An empty snapshot list for every entity. */
  function NoSnapshots(byId: map<string, Entity>): (m: map<string, seq<Snapshot>>)
    ensures m.Keys == byId.Keys
    ensures forall id :: id in m ==> m[id] == []
  {
    map id | id in byId :: []
  }

  /** `entities.find(e => e instanceof FallbackEntity)`: the first fallback entity. */
  function FindFallback(list: seq<Entity>): (r: Option<Entity>)
    ensures r.None? <==> forall i :: 0 <= i < |list| ==> !list[i].details.FallbackDetails?
    ensures r.Some? ==> exists i :: 0 <= i < |list| && list[i] == r.value && r.value.details.FallbackDetails? &&
                                    forall j :: 0 <= j < i ==> !list[j].details.FallbackDetails?
  {
    if list == [] then None
    else if list[0].details.FallbackDetails? then Some(list[0])
    else
      var r := FindFallback(list[1..]);
      assert forall j :: 1 <= j < |list| ==> list[j] == list[1..][j - 1];
      r
  }

  /** The earliest-day loop from `acc` on. The TypeScript tests the running
      value for truthiness, so both "none yet" and day 0 are 0 here: a later
      first entry replaces a 0 even when it is larger. */
  function EarliestFrom(list: seq<Entity>, acc: int): int
    decreases |list|
  {
    if list == [] then acc
    else
      var e := list[0];
      var next := if |e.ledger| > 0 && (acc == 0 || e.ledger[0].day < acc) then e.ledger[0].day else acc;
      EarliestFrom(list[1..], next)
  }

  /** The start day: the loop's result, or today when it is 0. */
  function StartDay(list: seq<Entity>, today: int): int {
    var d := EarliestFrom(list, 0);
    if d == 0 then today else d
  }

  /** No entity's first ledger entry is on day 0, the one day the loop confuses
      with "none yet". */
  predicate NoZeroStart(list: seq<Entity>) {
    forall i :: 0 <= i < |list| && |list[i].ledger| > 0 ==> list[i].ledger[0].day != 0
  }

  lemma {:induction false} EarliestFromBounds(list: seq<Entity>, acc: int)
    requires NoZeroStart(list)
    ensures var r := EarliestFrom(list, acc);
            (r == acc || exists i :: 0 <= i < |list| && |list[i].ledger| > 0 && r == list[i].ledger[0].day) &&
            (acc != 0 ==> r != 0 && r <= acc) &&
            (forall i :: 0 <= i < |list| && |list[i].ledger| > 0 ==> r <= list[i].ledger[0].day) &&
            (r == 0 <==> acc == 0 && forall i :: 0 <= i < |list| ==> |list[i].ledger| == 0)
    decreases |list|
  {
    if list != [] {
      var e := list[0];
      var next := if |e.ledger| > 0 && (acc == 0 || e.ledger[0].day < acc) then e.ledger[0].day else acc;
      assert forall j :: 1 <= j < |list| ==> list[j] == list[1..][j - 1];
      EarliestFromBounds(list[1..], next);
    }
  }

  /** Without a first entry on day 0, the start day is the smallest first-entry
      day, and today when no entity has an entry. */
  lemma StartDayIsEarliest(list: seq<Entity>, today: int)
    requires NoZeroStart(list)
    ensures (forall i :: 0 <= i < |list| ==> |list[i].ledger| == 0) ==> StartDay(list, today) == today
    ensures (exists i :: 0 <= i < |list| && |list[i].ledger| > 0) ==>
              (exists i :: 0 <= i < |list| && |list[i].ledger| > 0 && StartDay(list, today) == list[i].ledger[0].day) &&
              forall i :: 0 <= i < |list| && |list[i].ledger| > 0 ==> StartDay(list, today) <= list[i].ledger[0].day
  {
    EarliestFromBounds(list, 0);
  }

  /** The second loop of the constructor. */
  method FindStartDay(list: seq<Entity>, today: int) returns (day: int)
    ensures day == StartDay(list, today)
  {
    var earliest := 0;
    for i := 0 to |list|
      invariant EarliestFrom(list[i..], earliest) == EarliestFrom(list, 0)
    {
      var e := list[i];
      assert list[i..][1..] == list[i + 1..];
      if |e.ledger| > 0 && (earliest == 0 || e.ledger[0].day < earliest) {
        earliest := e.ledger[0].day;
      }
    }
    day := if earliest == 0 then today else earliest;
  }

  // ---------------------------------------------------------------------------
  // The simulation

  class Simulation {
    const startDay: int
    const endDay: int
    /** The entity ids in insertion order, which is the order of the `Map`. */
    const order: seq<string>
    const entities: map<string, Entity>
    const fallback: Entity
    /** `Math.pow`. */
    const pow: (real, real) -> real
    var snapshots: map<string, seq<Snapshot>>
    var dataPoints: map<int, DataPoint>

    /** Ids are the map keys, in one order without repeats, the fallback is
        registered, and every entity has a chronological list of snapshots. */
    ghost predicate Valid()
      reads this`snapshots
    {
      WellIndexed(order, entities, fallback.id, snapshots)
    }

    /** No snapshot is later than `day`. */
    ghost predicate SnapshotsUpTo(day: int)
      reads this`snapshots
    {
      AllUpTo(snapshots, day)
    }

    /** `new Simulation(entities, simulationYears, today)`; the `Error` it throws
        without a fallback entity is the failure. */
    static method Create(list: seq<Entity>, years: int, today: int, pow: (real, real) -> real)
      returns (r: Result<Simulation>)
      ensures r.Failure? <==> FindFallback(list).None?
      ensures r.Failure? ==> r.error == "Fallback entity is missing"
      ensures r.Success? ==> fresh(r.value) && r.value.Valid() && r.value.dataPoints == map[] &&
                             r.value.entities == EntitiesById(list) && r.value.order == IdOrder(list) &&
                             r.value.fallback == FindFallback(list).value &&
                             r.value.startDay == StartDay(list, today) &&
                             r.value.endDay == StartDay(list, today) + years * 365
    {
      var fb := FindFallback(list);
      if fb.None? {
        return Failure("Fallback entity is missing");
      }
      FallbackRegistered(list, fb.value);
      var s := new Simulation(list, years, today, pow, fb.value);
      return Success(s);
    }

    /** The constructor proper, once the fallback entity is known to be in the list. */
    constructor (list: seq<Entity>, years: int, today: int, pow: (real, real) -> real, fb: Entity)
      requires fb.id in EntitiesById(list)
      ensures Valid() && dataPoints == map[]
      ensures entities == EntitiesById(list) && order == IdOrder(list) && fallback == fb
      ensures startDay == StartDay(list, today) && endDay == StartDay(list, today) + years * 365
    {
      var ids, byId := IndexEntities(list);
      var first := FindStartDay(list, today);
      var empty := NoSnapshots(byId);
      InitiallyIndexed(list, fb.id);
      assert WellIndexed(ids, byId, fb.id, empty);
      order := ids;
      entities := byId;
      fallback := fb;
      this.pow := pow;
      startDay := first;
      endDay := first + years * 365;
      snapshots := empty;
      dataPoints := map[];
      new;
      assert Valid();
      RunSimulation();
    }

    /** The value an entity has on `day`; 0 for an unknown id. */
    ghost function EntityValue(id: string, day: int): (v: real)
      reads this`snapshots
      ensures id !in snapshots ==> v == 0.0
      ensures id in snapshots && (forall i :: 0 <= i < |snapshots[id]| ==> snapshots[id][i].day > day) ==> v == 0.0
    {
      if id in snapshots then ValueOn(snapshots[id], day) else 0.0
    }

    /** The values of `ids` on `day`. */
    ghost function ValuesOf(ids: seq<string>, day: int): (vs: seq<real>)
      reads this`snapshots
      ensures |vs| == |ids|
    {
      if ids == [] then [] else ValuesOf(ids[..|ids| - 1], day) + [EntityValue(ids[|ids| - 1], day)]
    }

    /** `getEntityValueForDay`: scans the list from its end. */
    method GetEntityValueForDay(entityId: string, day: int) returns (v: real)
      ensures v == EntityValue(entityId, day)
    {
      if entityId !in snapshots {
        return 0.0;
      }
      var s := snapshots[entityId];
      var i := |s|;
      assert s[..i] == s;
      while i > 0
        invariant 0 <= i <= |s|
        invariant ValueOn(s, day) == ValueOn(s[..i], day)
      {
        assert s[..i][..i - 1] == s[..i - 1];
        if s[i - 1].day <= day {
          return s[i - 1].Value();
        }
        i := i - 1;
      }
      return 0.0;
    }

    /** `getAssets`: the positive values added up. */
    method GetAssets(day: int) returns (total: real)
      ensures total == PositiveSum(ValuesOf(order, day))
    {
      total := 0.0;
      for k := 0 to |order|
        invariant total == PositiveSum(ValuesOf(order[..k], day))
      {
        var value := GetEntityValueForDay(order[k], day);
        assert order[..k + 1][..k] == order[..k];
        if value > 0.0 {
          total := total + value;
        }
      }
      assert order[..|order|] == order;
    }

    /** `getDebt`: the magnitudes of the negative values added up. */
    method GetDebt(day: int) returns (total: real)
      ensures total == NegativeSum(ValuesOf(order, day))
    {
      total := 0.0;
      for k := 0 to |order|
        invariant total == NegativeSum(ValuesOf(order[..k], day))
      {
        var value := GetEntityValueForDay(order[k], day);
        assert order[..k + 1][..k] == order[..k];
        if value < 0.0 {
          total := total + Abs(value);
        }
      }
      assert order[..|order|] == order;
    }

    /** `getNetWorth`: assets less debt, which is the sum of all values. */
    method GetNetWorth(day: int) returns (w: real)
      ensures w == Sum(ValuesOf(order, day))
      ensures w == PositiveSum(ValuesOf(order, day)) - NegativeSum(ValuesOf(order, day))
    {
      var assets := GetAssets(day);
      var debt := GetDebt(day);
      w := assets - debt;
      NetWorthIsSum(ValuesOf(order, day));
    }

    /** The totals of `day`. */
    ghost function PointOn(day: int): (p: DataPoint)
      reads this`snapshots
      ensures p.assets >= 0.0 && p.debt >= 0.0 && p.netWorth == p.assets - p.debt
    {
      var vs := ValuesOf(order, day);
      DataPoint(PositiveSum(vs), NegativeSum(vs), PositiveSum(vs) - NegativeSum(vs))
    }

    /** 31 December of year `y`: `createEpochDay(y, 12, 31)`, whose fields are
        in range, so its second pass changes nothing (`CreateEpochDayInRange`). */
    static function LastDayOfYear(y: int): int {
      DateUTC(y, 11, 31)
    }

    /** `createEpochDay(year, 12, 31)`, as the loop of `getDataPointsForAllYears` computes it. */
    static method YearEndDay(year: int) returns (day: int)
      ensures day == LastDayOfYear(year)
    {
      day := CreateEpochDay(year, 12, 31);
      CreateEpochDayInRange(year, 12, 31);
    }

    /** Every point is on 31 December of a year from `y0` to `y1` and holds
        that day's totals. */
    ghost predicate PointsWithin(points: map<int, DataPoint>, y0: int, y1: int)
      reads this`snapshots
    {
      forall k :: k in points ==>
        (exists y :: y0 <= y <= y1 && k == LastDayOfYear(y)) && points[k] == PointOn(k)
    }

    /** Every stored point is the 31 December of a year of the window and holds
        that day's totals. */
    ghost predicate PointsSound(points: map<int, DataPoint>)
      reads this`snapshots
    {
      PointsWithin(points, YearFromDay(startDay), YearFromDay(endDay))
    }

    /** Every year of the window has its point. */
    ghost predicate PointsComplete(points: map<int, DataPoint>) {
      var y0, y1 := YearFromDay(startDay), YearFromDay(endDay);
      forall y :: y0 <= y <= y1 ==> LastDayOfYear(y) in points
    }

    /** What the memo holds: nothing yet, or the points of every year. */
    ghost predicate PointsValid()
      reads this
    {
      PointsSound(dataPoints) && (dataPoints != map[] ==> PointsComplete(dataPoints))
    }

    /** Adding the totals of 31 December of a year of the window keeps every
        point sound. */
    lemma AddYearPoint(points: map<int, DataPoint>, y0: int, y1: int, year: int, point: DataPoint)
      requires PointsWithin(points, y0, y1)
      requires y0 <= year <= y1 && point == PointOn(LastDayOfYear(year))
      ensures PointsWithin(points[LastDayOfYear(year) := point], y0, y1)
    {
    }

    /** The loop of `getDataPointsForAllYears`: the totals on 31 December of
        every year from `y0` to `y1`, and nothing else. */
    method YearEndPoints(y0: int, y1: int) returns (points: map<int, DataPoint>)
      ensures PointsWithin(points, y0, y1)
      ensures forall y :: y0 <= y <= y1 ==> LastDayOfYear(y) in points
    {
      points := map[];
      var year := y0;
      while year <= y1
        invariant year == y0 || year <= y1 + 1
        invariant PointsWithin(points, y0, y1)
        invariant forall y :: y0 <= y < year ==> LastDayOfYear(y) in points
        decreases y1 - year
      {
        var lastDayOfYear := YearEndDay(year);
        var assets := GetAssets(lastDayOfYear);
        var debt := GetDebt(lastDayOfYear);
        var netWorth := GetNetWorth(lastDayOfYear);
        var point := DataPoint(assets, debt, netWorth);
        assert point == PointOn(lastDayOfYear);
        AddYearPoint(points, y0, y1, year, point);
        points := points[lastDayOfYear := point];
        year := year + 1;
      }
    }

    /** `getDataPointsForAllYears`: computed once, on 31 December of every year
        from the start day's year to the end day's, then kept. */
    method GetDataPointsForAllYears() returns (points: map<int, DataPoint>)
      requires PointsValid()
      modifies this`dataPoints
      ensures points == dataPoints && PointsValid()
      ensures PointsSound(points) && PointsComplete(points)
      ensures old(dataPoints) != map[] ==> dataPoints == old(dataPoints)
    {
      if dataPoints == map[] {
        var y0, y1 := EpochDayToDate(startDay).year, EpochDayToDate(endDay).year;
        EpochDayToDateYear(startDay);
        EpochDayToDateYear(endDay);
        dataPoints := YearEndPoints(y0, y1);
      }
      points := dataPoints;
    }

    // -------------------------------------------------------------------------
    // Running

    /** The transaction as applied: one whose target is unknown goes to the
        fallback entity. */
    function Redirected(tx: Transaction): (t: Transaction)
      ensures tx.targetEntityId in entities ==> t == tx
      ensures tx.targetEntityId !in entities ==> t == tx.(targetEntityId := fallback.id)
    {
      if tx.targetEntityId in entities then tx
      else
        RetargetKeepsRest(tx, fallback.id);
        tx.Copy(Retarget(fallback.id))
    }

    /** `applyTransaction`: only the target's list changes, to `Applied`; the
        out-of-order error leaves everything as it was. */
    method ApplyTransaction(tx: Transaction) returns (ok: bool)
      requires Valid()
      modifies this`snapshots
      ensures Valid()
      ensures var t := Redirected(tx);
              ok == Applied(old(snapshots)[t.targetEntityId], t).Success? &&
              snapshots == if ok then old(snapshots)[t.targetEntityId := Applied(old(snapshots)[t.targetEntityId], t).value]
                           else old(snapshots)
      ensures old(SnapshotsUpTo(tx.day)) ==> ok && SnapshotsUpTo(tx.day)
    {
      var t := tx;
      if t.targetEntityId !in entities {
        t := t.Copy(Retarget(fallback.id));
      }
      assert t == Redirected(tx);
      var list := snapshots[t.targetEntityId];
      if |list| > 0 && t.day < list[|list| - 1].day {
        return false;
      }
      assert Applied(list, t).Success?;
      var next := CarryForward(list, t);
      var updated;
      if |list| > 0 && list[|list| - 1].day == t.day {
        updated := list[..|list| - 1] + [next];
      } else {
        updated := list + [next];
      }
      assert updated == Applied(list, t).value;
      StoreKeepsIndexed(order, entities, fallback.id, snapshots, t.targetEntityId, updated);
      if AllUpTo(snapshots, t.day) {
        AppliedUpTo(snapshots, t, updated);
        StoreKeepsUpTo(snapshots, t.targetEntityId, updated, t.day);
      }
      snapshots := snapshots[t.targetEntityId := updated];
      ok := true;
    }

    /** Applies one entity's transactions of `day`, all dated `day`. */
    method ApplyAll(day: int, txs: seq<Transaction>)
      requires Valid() && SnapshotsUpTo(day)
      requires forall k :: 0 <= k < |txs| ==> txs[k].day == day
      modifies this`snapshots
      ensures Valid() && SnapshotsUpTo(day)
    {
      for k := 0 to |txs|
        invariant Valid() && SnapshotsUpTo(day)
      {
        var ok := ApplyTransaction(txs[k]);
        assert ok;
      }
    }

    /** Simulates the entities of `day`, in bucket order. */
    method SimulateEntities(day: int, es: seq<Entity>)
      requires Valid() && SnapshotsUpTo(day)
      requires forall k :: 0 <= k < |es| ==> es[k].id in entities
      modifies this`snapshots
      ensures Valid() && SnapshotsUpTo(day)
    {
      for k := 0 to |es|
        invariant Valid() && SnapshotsUpTo(day)
      {
        var txs := SimulateDay(es[k], day, snapshots[es[k].id], pow);
        ApplyAll(day, txs);
      }
    }

    /** The entities of every simulation day, bucketed in entity order, and
        the days in the order they were first seen. */
    method BucketByDay() returns (byDay: map<int, seq<Entity>>, dayKeys: seq<int>)
      requires Valid()
      ensures forall d :: d in dayKeys <==> d in byDay
      ensures forall d :: d in byDay ==> forall k :: 0 <= k < |byDay[d]| ==> byDay[d][k].id in entities
    {
      byDay, dayKeys := map[], [];
      for i := 0 to |order|
        invariant forall d :: d in dayKeys <==> d in byDay
        invariant forall d :: d in byDay ==> forall k :: 0 <= k < |byDay[d]| ==> byDay[d][k].id in entities
      {
        var e := entities[order[i]];
        var days := GetSimulationDays(e, startDay, endDay);
        for j := 0 to |days|
          invariant forall d :: d in dayKeys <==> d in byDay
          invariant forall d :: d in byDay ==> forall k :: 0 <= k < |byDay[d]| ==> byDay[d][k].id in entities
        {
          var d := days[j];
          if d in byDay {
            byDay := byDay[d := byDay[d] + [e]];
          } else {
            byDay := byDay[d := [e]];
            dayKeys := dayKeys + [d];
          }
        }
      }
    }

    /** `runSimulation`: the days in ascending order, and on each day every
        entity's transactions applied at once. Since every transaction is dated
        on the day being simulated, none is ever out of order. */
    method RunSimulation()
      requires Valid()
      requires forall id :: id in snapshots ==> snapshots[id] == []
      modifies this`snapshots
      ensures Valid()
    {
      var byDay, dayKeys := BucketByDay();
      var allDays := SortedSet(dayKeys);
      for i := 0 to |allDays|
        invariant Valid()
        invariant i < |allDays| ==> SnapshotsUpTo(allDays[i])
      {
        var day := allDays[i];
        assert day in allDays;
        SimulateEntities(day, byDay[day]);
        if i + 1 < |allDays| {
          assert allDays[i] < allDays[i + 1];
        }
      }
    }
  }
}
