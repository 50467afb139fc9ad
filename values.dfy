/** The two value records of the simulation: a `Snapshot` holds an entity's
    value on one day, a `Transaction` asks for one entity's value to change on
    one day, either field by field (a correction) or additively (a delta). */
module Values {
  import opened Wrappers

  /** Money amounts and share figures of one entity on one day. */
  datatype Snapshot = Snapshot(day: int, amount: real, shareQuantity: real, sharePrice: real)
  {
    /** The amount, or the holding's market value when no amount is recorded. */
    function Value(): real {
      if amount == 0.0 then shareQuantity * sharePrice else amount
    }

    /** `{ ...this, ...updates }`: every supplied field wins, the rest is kept. */
    function Copy(updates: SnapshotUpdate): (r: Snapshot)
      ensures r.day == (if updates.day.Some? then updates.day.value else day)
      ensures r.amount == (if updates.amount.Some? then updates.amount.value else amount)
      ensures r.shareQuantity == (if updates.shareQuantity.Some? then updates.shareQuantity.value else shareQuantity)
      ensures r.sharePrice == (if updates.sharePrice.Some? then updates.sharePrice.value else sharePrice)
    {
      NewSnapshot(SnapshotInput(
        updates.day.GetOr(day),
        Some(updates.amount.GetOr(amount)),
        Some(updates.shareQuantity.GetOr(shareQuantity)),
        Some(updates.sharePrice.GetOr(sharePrice))))
    }
  }

  /** The constructor's argument: only the day is required. */
  datatype SnapshotInput = SnapshotInput(day: int, amount: Option<real>, shareQuantity: Option<real>, sharePrice: Option<real>)

  /** A `Partial<SnapshotInput>`: `None` marks a key that is not supplied. */
  datatype SnapshotUpdate = SnapshotUpdate(day: Option<int>, amount: Option<real>, shareQuantity: Option<real>, sharePrice: Option<real>)

  const NoSnapshotUpdate := SnapshotUpdate(None, None, None, None)

  /** `new Snapshot(input)`: a missing figure is 0. */
  function NewSnapshot(input: SnapshotInput): (s: Snapshot)
    ensures s.day == input.day
    ensures input.amount.None? ==> s.amount == 0.0
    ensures input.amount.Some? ==> s.amount == input.amount.value
    ensures input.shareQuantity.None? ==> s.shareQuantity == 0.0
    ensures input.shareQuantity.Some? ==> s.shareQuantity == input.shareQuantity.value
    ensures input.sharePrice.None? ==> s.sharePrice == 0.0
    ensures input.sharePrice.Some? ==> s.sharePrice == input.sharePrice.value
  {
    Snapshot(input.day, input.amount.GetOr(0.0), input.shareQuantity.GetOr(0.0), input.sharePrice.GetOr(0.0))
  }

  /** A snapshot's value is its amount whenever the amount is non-zero, and
      the share value otherwise. */
  lemma SnapshotValueCases(s: Snapshot)
    ensures s.amount != 0.0 ==> s.Value() == s.amount
    ensures s.amount == 0.0 ==> s.Value() == s.shareQuantity * s.sharePrice
  {
  }

  /** A snapshot built from only a day is worth nothing. */
  lemma DayOnlySnapshotValue(day: int)
    ensures NewSnapshot(SnapshotInput(day, None, None, None)).Value() == 0.0
  {
  }

  /** `copy({})` is the same snapshot. */
  lemma SnapshotCopyNothing(s: Snapshot)
    ensures s.Copy(NoSnapshotUpdate) == s
  {
  }

  /** Copying twice with the same updates is copying once. */
  lemma SnapshotCopyIdempotent(s: Snapshot, u: SnapshotUpdate)
    ensures s.Copy(u).Copy(u) == s.Copy(u)
  {
  }

  /** An instruction to change the value of `targetEntityId` on `day`. The
      figures stay absent when not given: a correction then leaves that field
      alone and a delta adds nothing to it. */
  datatype Transaction = Transaction(
    day: int,
    targetEntityId: string,
    amount: Option<real>,
    shareQuantity: Option<real>,
    sharePrice: Option<real>,
    isCorrection: bool)
  {
    /** `{ ...this, ...updates }` passed back through the constructor. */
    function Copy(updates: TransactionUpdate): (r: Transaction)
      ensures r.day == (if updates.day.Some? then updates.day.value else day)
      ensures r.targetEntityId == (if updates.targetEntityId.Some? then updates.targetEntityId.value else targetEntityId)
      ensures r.amount == (if updates.amount.Some? then updates.amount else amount)
      ensures r.shareQuantity == (if updates.shareQuantity.Some? then updates.shareQuantity else shareQuantity)
      ensures r.sharePrice == (if updates.sharePrice.Some? then updates.sharePrice else sharePrice)
      ensures r.isCorrection == (if updates.isCorrection.Some? then updates.isCorrection.value else isCorrection)
    {
      NewTransaction(TransactionInput(
        updates.day.GetOr(day),
        updates.targetEntityId.GetOr(targetEntityId),
        if updates.amount.Some? then updates.amount else amount,
        if updates.shareQuantity.Some? then updates.shareQuantity else shareQuantity,
        if updates.sharePrice.Some? then updates.sharePrice else sharePrice,
        Some(updates.isCorrection.GetOr(isCorrection))))
    }
  }

  /** The constructor's argument. */
  datatype TransactionInput = TransactionInput(
    day: int,
    targetEntityId: string,
    amount: Option<real>,
    shareQuantity: Option<real>,
    sharePrice: Option<real>,
    isCorrection: Option<bool>)

  /** A `Partial<TransactionInput>`: `None` marks a key that is not supplied. */
  datatype TransactionUpdate = TransactionUpdate(
    day: Option<int>,
    targetEntityId: Option<string>,
    amount: Option<real>,
    shareQuantity: Option<real>,
    sharePrice: Option<real>,
    isCorrection: Option<bool>)

  const NoTransactionUpdate := TransactionUpdate(None, None, None, None, None, None)

  /** `copy({ targetEntityId: id })`. */
  function Retarget(id: string): TransactionUpdate {
    TransactionUpdate(None, Some(id), None, None, None, None)
  }

  /** `new Transaction(input)`: the figures are kept as given, absent ones
      included, and the correction flag defaults to false. */
  function NewTransaction(input: TransactionInput): (t: Transaction)
    ensures t.day == input.day && t.targetEntityId == input.targetEntityId
    ensures t.amount == input.amount && t.shareQuantity == input.shareQuantity && t.sharePrice == input.sharePrice
    ensures input.isCorrection.None? ==> !t.isCorrection
    ensures input.isCorrection.Some? ==> t.isCorrection == input.isCorrection.value
  {
    Transaction(input.day, input.targetEntityId, input.amount, input.shareQuantity,
                input.sharePrice, input.isCorrection.GetOr(false))
  }

  /** A delta of `amount` to `target` on `day`, as the variants emit it. */
  function Delta(day: int, target: string, amount: real): (t: Transaction)
    ensures t.day == day && t.targetEntityId == target && !t.isCorrection
    ensures t.amount == Some(amount) && t.shareQuantity.None? && t.sharePrice.None?
  {
    NewTransaction(TransactionInput(day, target, Some(amount), None, None, None))
  }

  /** `copy({})` gives a transaction equal field for field to the original. */
  lemma TransactionCopyNothing(t: Transaction)
    ensures t.Copy(NoTransactionUpdate) == t
  {
  }

  /** Re-targeting changes the target and nothing else. */
  lemma RetargetKeepsRest(t: Transaction, id: string)
    ensures t.Copy(Retarget(id)) == t.(targetEntityId := id)
  {
  }
}
