/** Why an operation is rejected: the two layers of validation agree, and the
    stocktake reasons are exact. */
module Reasons {
  import opened Prelude
  import opened Schema
  import opened Ledger
  import opened SyncPolicy
  import M = MovementPolicy

  predicate NamedCaller(who: Identity) {
    who.userId != NIL_UUID && who.deviceId != NIL_UUID
  }

  /** What the envelope check lets through, the movement service accepts. */
  lemma EnvelopeImpliesNormalized(m: MovementRequest, who: Identity)
    requires ValidMovementRequest(m) && NamedCaller(who)
    ensures M.NormalizeAppend(AppendInputOf(m, who)).Ok?
  {
  }

  /** So the services' own input rules never reject an operation that passed
      the envelope check. The reasons that stand for them are unreachable, a
      rejected delta can only be a recomputed one, and a rejected reversal
      names a movement of another product of the account. */
  lemma ServiceValidationIsRedundant(t: Tables, who: Identity, op: Operation, now: Timestamp)
    requires ValidOperation(op) && NamedCaller(who)
    ensures var d := Decide(t, who, op, now);
      d.Reject? ==>
        && d.reason !in {InvalidOperation, InvalidProduct, InvalidMovement, InvalidMovementKind, InvalidStocktake}
        && (d.reason.InvalidDelta? ==> op.payload.AddMovement? && op.payload.movement.kind.Stocktake?)
        && (d.reason.InvalidReversal? ==>
              && op.payload.AddMovement? && op.payload.movement.reversesId.Some?
              && var target := FindMovement(t.movements, op.payload.movement.reversesId.value);
                 target.Some? && target.value.userId == who.userId
                   && target.value.productId != op.payload.movement.productId)
  {
    if op.payload.AddMovement? {
      EnvelopeImpliesNormalized(op.payload.movement, who);
    }
  }

  /** A stocktake that reaches an active product of its own account. */
  predicate Deliverable(t: Tables, who: Identity, m: MovementRequest) {
    && ValidMovementRequest(m) && m.kind.Stocktake? && NamedCaller(who)
    && (m.deviceId.None? || m.deviceId.value == who.deviceId)
    && M.ActiveAndOwned(t.products, who.userId, m.productId) && DeviceOwned(t, who.userId, who.deviceId)
    && !MovementExists(t.movements, m.id)
  }

  predicate Outranked(t: Tables, who: Identity, m: MovementRequest) {
    var latest := LatestStocktake(t.movements, who.userId, m.productId);
    latest.Some? && !KeyBefore(latest.value.occurredAt, latest.value.id, m.occurredAt, m.id)
  }

  /** What a resolution says of one stocktake. */
  predicate Describes(intent: StocktakeIntent, id: Uuid, productId: Uuid, delta: int, counted: Option<int32>,
                      at: Timestamp, deviceId: Uuid)
  {
    && intent.movementId == id && intent.productId == productId && intent.delta == delta
    && intent.countedQty == (if counted.Some? then counted.value else 0)
    && intent.occurredAt == at && intent.deviceId == deviceId
  }

  predicate DescribesRow(intent: StocktakeIntent, row: StockMovement) {
    Describes(intent, row.id, row.productId, row.delta, row.countedQty, row.occurredAt, row.deviceId)
  }

  predicate DescribesRequest(intent: StocktakeIntent, m: MovementRequest, who: Identity, delta: int) {
    Describes(intent, m.id, m.productId, delta, m.countedQty, m.occurredAt, who.deviceId)
  }

  /** Its resolution, in columns. A displaced stocktake is the incoming one, and
      the product's canonical stocktake and ledger balance stay. A written one
      is canonical and incoming, with the recomputed delta, the balance is its
      count, and it displaces exactly the former canonical stocktake. */
  lemma StocktakeResolutionExact(t: Tables, who: Identity, m: MovementRequest, now: Timestamp)
    requires Deliverable(t, who, m)
    ensures
      var d := DecideMovement(t, who, m, now);
      var latest := LatestStocktake(t.movements, who.userId, m.productId);
      var qty := LedgerQty(t.movements, who.userId, m.productId);
      && (d.Reject? && d.reason.StocktakeDisplaced? ==>
            && latest.Some? && d.stocktake.Some? && d.serverState == None
            && var r := d.stocktake.value;
               && r.productId == m.productId && r.canonicalBalance == qty && r.displaced == []
               && DescribesRow(r.canonical, latest.value) && DescribesRequest(r.incoming, m, who, m.delta))
      && (d.WriteMovement? ==>
            && d.resolution.Some?
            && var r := d.resolution.value;
               && r.productId == m.productId && r.canonicalBalance == m.countedQty.value
               && DescribesRequest(r.canonical, m, who, m.countedQty.value - qty)
               && DescribesRequest(r.incoming, m, who, m.countedQty.value - qty)
               && if latest.None? then r.displaced == []
                  else |r.displaced| == 1 && DescribesRow(r.displaced[0], latest.value))
  {
    EnvelopeImpliesNormalized(m, who);
  }

  /** Its outcome, exactly: displaced if the product's canonical stocktake has
      no smaller key; otherwise rejected if the count is what the ledger
      already says, or too far from it; otherwise written, with the delta that
      brings the balance to the count. The delta sent by the client is ignored. */
  lemma StocktakeOutcomeExact(t: Tables, who: Identity, m: MovementRequest, now: Timestamp)
    requires Deliverable(t, who, m)
    ensures
      var d := DecideMovement(t, who, m, now);
      var gap := m.countedQty.value - LedgerQty(t.movements, who.userId, m.productId);
      && ((d.Reject? && d.reason.StocktakeDisplaced?) <==> Outranked(t, who, m))
      && ((d.Reject? && d.reason.InvalidDelta?) <==> !Outranked(t, who, m) && (gap == 0 || !FitsInt32(gap)))
      && (d.WriteMovement? <==> !Outranked(t, who, m) && gap != 0 && FitsInt32(gap))
      && (d.WriteMovement? ==>
            && d.movement.delta == gap && d.resolution.Some?
            && d.resolution.value.canonicalBalance == m.countedQty.value
            && |d.resolution.value.displaced| <= 1)
    ensures forall other: int32 | other != 0 :: DecideMovement(t, who, m.(delta := other), now).WriteMovement? ==>
      DecideMovement(t, who, m.(delta := other), now) == DecideMovement(t, who, m, now)
  {
    EnvelopeImpliesNormalized(m, who);
  }
}
