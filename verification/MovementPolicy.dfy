/** What the movement service decides about one append: the input rules, the
    product and reversal checks, the stocktake order and the recomputed delta.
    Everything here is a value; class Database and module Services change
    state. */
module MovementPolicy {
  import opened Prelude
  import opened Schema
  import opened Ledger

  datatype AppendInput = AppendInput(
    id: Uuid, userId: Uuid, productId: Uuid, delta: int32, kind: MovementKind,
    note: Option<string>, occurredAt: Timestamp, rawOccurredAt: Timestamp,
    clockOffsetMs: int, countedQty: Option<int32>, reversesId: Option<Uuid>,
    deviceId: Uuid)

  datatype MovementError =
    | InvalidInput | BadDelta | BadKind | NoProduct | DeletedProduct
    | NotOwner | NoMovement | BadReversal | DuplicateMovement | BadStocktake
    | Displaced(resolution: StocktakeResolution)
    | Unavailable

  function NormalizeAppend(input: AppendInput): Result<AppendInput, MovementError> {
    if NIL_UUID in {input.id, input.userId, input.productId, input.deviceId} then Err(InvalidInput)
    else if input.kind.UnknownKind? then Err(BadKind)
    else if input.occurredAt == ZERO_TIME then Err(InvalidInput)
    else if input.reversesId.Some? && (input.reversesId.value == NIL_UUID || !input.kind.Adjust?) then Err(BadReversal)
    else if input.kind.Stocktake? && (input.countedQty.None? || input.countedQty.value < 0) then Err(BadStocktake)
    else if !input.kind.Stocktake? && input.countedQty.Some? then Err(BadStocktake)
    else if !input.kind.Stocktake? && input.delta == 0 then Err(BadDelta)
    else Ok(input.(rawOccurredAt := if input.rawOccurredAt == ZERO_TIME then input.occurredAt else input.rawOccurredAt,
                   note := NormalizeOptional(input.note)))
  }

  /** Why an active, owned product was not found. */
  function ClassifyMiss(products: map<Uuid, Product>, userId: Uuid, productId: Uuid): MovementError {
    if productId !in products then NoProduct
    else if products[productId].userId != userId then NotOwner
    else if !products[productId].Active() then DeletedProduct
    else NoProduct
  }

  predicate ActiveAndOwned(products: map<Uuid, Product>, userId: Uuid, productId: Uuid) {
    productId in products && products[productId].userId == userId && products[productId].Active()
  }

  function IntentOfMovement(m: StockMovement): StocktakeIntent {
    StocktakeIntent(m.id, m.productId, m.delta, if m.countedQty.Some? then m.countedQty.value else 0, m.occurredAt,
                    m.deviceId)
  }

  function IntentOfInput(input: AppendInput): StocktakeIntent {
    StocktakeIntent(input.id, input.productId, input.delta,
                    if input.countedQty.Some? then input.countedQty.value else 0, input.occurredAt, input.deviceId)
  }

  /** The row an INSERT stores. */
  function RowOf(input: AppendInput, delta: int32, now: Timestamp): StockMovement {
    StockMovement(input.id, input.userId, input.productId, delta, input.kind, input.note, input.occurredAt,
                  input.rawOccurredAt, input.clockOffsetMs, input.countedQty, input.reversesId, input.deviceId, now)
  }

  function ReversalError(ms: seq<StockMovement>, input: AppendInput): Option<MovementError> {
    if input.reversesId.None? then None
    else
      match FindMovement(ms, input.reversesId.value)
      case None => Some(NoMovement)
      case Some(original) =>
        if original.userId != input.userId then Some(NotOwner)
        else if original.productId != input.productId then Some(BadReversal)
        else None
  }

  /** `Refuse` leaves the transaction usable. `Clash` is a violated constraint,
      such as a duplicate id, which aborts it. */
  datatype AppendDecision =
    | Refuse(error: MovementError)
    | Clash(error: MovementError)
    | Append(movement: StockMovement, resolution: Option<StocktakeResolution>)

  function DecideInsert(t: Tables, input: AppendInput, delta: int, resolution: Option<StocktakeResolution>,
                        now: Timestamp): AppendDecision
  {
    if delta == 0 || !FitsInt32(delta) then Refuse(BadDelta)
    else if MovementExists(t.movements, input.id) then Clash(DuplicateMovement)
    else if !DeviceOwned(t, input.userId, input.deviceId) then Clash(NotOwner)
    else Append(RowOf(input, delta, now), resolution)
  }

  function AcceptedStocktake(input: AppendInput, delta: int32, qty: int, latest: Option<StockMovement>,
                             now: Timestamp): StocktakeResolution
  {
    var m := RowOf(input, delta, now);
    StocktakeResolution(input.productId, qty + delta, IntentOfMovement(m), IntentOfMovement(m),
                        if latest.Some? then [IntentOfMovement(latest.value)] else [])
  }

  function Outranking(latest: StockMovement, qty: int, input: AppendInput): StocktakeResolution {
    StocktakeResolution(input.productId, qty, IntentOfMovement(latest), IntentOfInput(input), [])
  }

  /** The decision on a normalized stocktake whose product is active. */
  function DecideStocktake(t: Tables, input: AppendInput, now: Timestamp): AppendDecision
    requires input.countedQty.Some?
  {
    var latest := LatestStocktake(t.movements, input.userId, input.productId);
    var qty := LedgerQty(t.movements, input.userId, input.productId);
    if latest.Some? && !KeyBefore(latest.value.occurredAt, latest.value.id, input.occurredAt, input.id) then
      Refuse(Displaced(Outranking(latest.value, qty, input)))
    else
      var delta := input.countedQty.value - qty;
      DecideInsert(t, input, delta,
                   if FitsInt32(delta) then Some(AcceptedStocktake(input, delta, qty, latest, now)) else None, now)
  }

  /** The decision on a normalized input, with the stocktake order enforced. */
  function DecideAppend(t: Tables, input: AppendInput, now: Timestamp): AppendDecision
    requires input.kind.Stocktake? ==> input.countedQty.Some?
  {
    if !ActiveAndOwned(t.products, input.userId, input.productId) then
      Refuse(ClassifyMiss(t.products, input.userId, input.productId))
    else if ReversalError(t.movements, input).Some? then
      Refuse(ReversalError(t.movements, input).value)
    else if input.kind.Stocktake? then DecideStocktake(t, input, now)
    else DecideInsert(t, input, input.delta, None, now)
  }

  /** The two writes of an accepted append: the ledger row and the projection. */
  function AfterAppend(t: Tables, m: StockMovement, now: Timestamp): Tables {
    var balance := if m.productId in t.balances then Some(t.balances[m.productId]) else None;
    t.(movements := t.movements + [m],
       balances := t.balances[m.productId := Increment(balance, m.delta, m.occurredAt, now)])
  }
}
