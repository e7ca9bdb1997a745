/** One synchronization operation as a function of the committed tables: the
    simple form that the statement-by-statement code of module Services is
    proved to refine. */
module SyncPolicy {
  import opened Prelude
  import opened Schema
  import M = MovementPolicy
  import P = ProductPolicy

  datatype Identity = Identity(userId: Uuid, deviceId: Uuid)

  datatype MovementRequest = MovementRequest(
    id: Uuid, productId: Uuid, delta: int32, kind: MovementKind,
    note: Option<string>, occurredAt: Timestamp, rawOccurredAt: Option<Timestamp>,
    clockOffsetMs: int, countedQty: Option<int32>, reversesId: Option<Uuid>,
    deviceId: Option<Uuid>)

  datatype Payload =
    | AddMovement(movement: MovementRequest)
    | UpsertProduct(id: Uuid, fields: Fields)
    | DeleteProduct(id: Uuid, deletedAt: Option<Timestamp>)
    | Undecodable

  datatype Operation = Operation(opId: Uuid, baseVersion: Option<int>, payload: Payload)

  /** CURRENT_TIMESTAMP of the transaction, and the service's own clock. */
  datatype Clock = Clock(transaction: Timestamp, service: Timestamp)

  // ----- Envelope validation -----

  predicate ValidMovementRequest(m: MovementRequest) {
    && m.id != NIL_UUID && m.productId != NIL_UUID && m.delta != 0
    && !m.kind.UnknownKind? && m.occurredAt != ZERO_TIME
    && m.rawOccurredAt != Some(ZERO_TIME) && m.deviceId != Some(NIL_UUID)
    && (m.reversesId.Some? ==> m.reversesId.value != NIL_UUID && m.kind.Adjust?)
    && (m.countedQty.Some? <==> m.kind.Stocktake?)
    && (m.countedQty.Some? ==> m.countedQty.value >= 0)
  }

  predicate ValidOperation(op: Operation) {
    && op.opId != NIL_UUID
    && (op.baseVersion.Some? ==> op.baseVersion.value >= 0)
    && match op.payload
       case AddMovement(m) => op.baseVersion.None? && ValidMovementRequest(m)
       case UpsertProduct(id, fields) => id != NIL_UUID && P.ValidFields(fields)
       case DeleteProduct(id, deletedAt) =>
         op.baseVersion.Some? && op.baseVersion.value > 0 && id != NIL_UUID && deletedAt != Some(ZERO_TIME)
       case Undecodable => false
  }

  /** The response validator, for one result. */
  predicate ValidResult(r: OperationResult) {
    && r.opId != NIL_UUID
    && match r.status
       case Applied => r.cursor.Some? && r.cursor.value > 0 && r.reason.None? && r.serverState.None?
       case Rejected => r.reason.Some? && r.cursor.None?
       case Processing => false
  }

  // ----- Domain decisions -----

  /** What happens to a reserved operation. `Abandon` is an error that rolls
      the transaction back, so nothing at all is stored. */
  datatype Decision =
    | Abandon
    | Reject(reason: Reason, serverState: Option<ProductView>, stocktake: Option<StocktakeResolution>)
    | WriteProduct(product: Product, op: ChangeOp)
    | WriteMovement(movement: StockMovement, resolution: Option<StocktakeResolution>)

  function Plain(reason: Reason): Decision {
    Reject(reason, None, None)
  }

  function MovementReason(e: M.MovementError): Option<Reason> {
    match e
    case InvalidInput => Some(InvalidMovement)
    case BadDelta => Some(InvalidDelta)
    case BadKind => Some(InvalidMovementKind)
    case BadReversal => Some(InvalidReversal)
    case NoMovement => Some(MovementNotFound)
    case BadStocktake => Some(InvalidStocktake)
    case NoProduct => Some(ProductNotFound)
    case DeletedProduct => Some(ProductDeleted)
    case DuplicateMovement => Some(MovementConflict)
    case NotOwner => Some(OwnershipViolation)
    case Displaced(_) => Some(StocktakeDisplaced)
    case Unavailable => None
  }

  function ProductReason(e: P.ProductError): Option<Reason> {
    match e
    case InvalidInput => Some(InvalidProduct)
    case NoProduct => Some(ProductNotFound)
    case DeletedProduct => Some(ProductDeleted)
    case StaleVersion => Some(VersionConflict)
    case TakenBarcode => Some(BarcodeConflict)
    case DuplicateProduct => Some(ProductConflict)
    case NotOwner => Some(OwnershipViolation)
    case Unavailable => None
  }

  function AppendInputOf(m: MovementRequest, who: Identity): M.AppendInput {
    M.AppendInput(m.id, who.userId, m.productId, m.delta, m.kind, m.note, m.occurredAt,
                  if m.rawOccurredAt.Some? then m.rawOccurredAt.value else ZERO_TIME,
                  m.clockOffsetMs, m.countedQty, m.reversesId, who.deviceId)
  }

  function DecideMovement(t: Tables, who: Identity, m: MovementRequest, now: Timestamp): Decision {
    if m.deviceId.Some? && m.deviceId.value != who.deviceId then Plain(DeviceMismatch)
    else
      match M.NormalizeAppend(AppendInputOf(m, who))
      case Err(e) => if MovementReason(e).Some? then Plain(MovementReason(e).value) else Abandon
      case Ok(input) =>
        match M.DecideAppend(t, input, now)
        case Clash(_) => Abandon
        case Append(movement, resolution) => WriteMovement(movement, resolution)
        case Refuse(e) =>
          if e.Displaced? then Reject(StocktakeDisplaced, None, Some(e.resolution))
          else if MovementReason(e).Some? then Plain(MovementReason(e).value)
          else Abandon
  }

  /** The product an account may be shown to explain a rejection. */
  function OwnState(t: Tables, userId: Uuid, id: Uuid): Option<ProductView> {
    if id in t.products && t.products[id].userId == userId then Some(ViewProduct(t.products[id])) else None
  }

  ghost function BarcodeOwnerState(t: Tables, userId: Uuid, barcode: Option<string>): Option<ProductView> {
    if barcode.None? then None
    else
      var owner := ActiveProductByBarcode(t.products, userId, barcode.value);
      if owner.Some? then Some(ViewProduct(owner.value)) else None
  }

  /** A refusal is stored with a reason. Of the constraint violations only a
      taken barcode is; the others abort the transaction for good. */
  ghost function ProductOutcome(t: Tables, who: Identity, id: Uuid, barcode: Option<string>, op: ChangeOp,
                                d: P.ProductDecision): Decision
  {
    match d
    case Write(p) => WriteProduct(p, op)
    case Clash(e) =>
      if e.TakenBarcode? then
        Reject(BarcodeConflict, BarcodeOwnerState(t, who.userId, NormalizeOptional(barcode)), None)
      else Abandon
    case Refuse(e) =>
      if ProductReason(e).None? then Abandon
      else
        var state := if e.StaleVersion? || e.DeletedProduct? then OwnState(t, who.userId, id) else None;
        Reject(ProductReason(e).value, state, None)
  }

  ghost function DecideUpsert(t: Tables, who: Identity, baseVersion: Option<int>, id: Uuid, fields: Fields,
                              now: Timestamp): Decision
  {
    if id !in t.products then
      if baseVersion.Some? && baseVersion.value != 0 then Plain(InvalidBaseVersion)
      else ProductOutcome(t, who, id, fields.barcode, Upsert,
                          P.DecideCreate(t, id, who.userId, who.deviceId, fields, now))
    else if t.products[id].userId != who.userId then Plain(OwnershipViolation)
    else if !t.products[id].Active() then Reject(ProductDeleted, Some(ViewProduct(t.products[id])), None)
    else if baseVersion.None? || baseVersion.value <= 0 then Plain(InvalidBaseVersion)
    else ProductOutcome(t, who, id, fields.barcode, Upsert,
                        P.DecideUpdate(t, id, who.userId, who.deviceId, fields, baseVersion.value, now))
  }

  ghost function DecideTombstone(t: Tables, who: Identity, baseVersion: Option<int>, id: Uuid,
                                 now: Timestamp): Decision
  {
    if baseVersion.None? || baseVersion.value <= 0 then Plain(InvalidBaseVersion)
    else ProductOutcome(t, who, id, None, Delete,
                        P.DecideDelete(t, id, who.userId, who.deviceId, baseVersion.value, now))
  }

  ghost function Decide(t: Tables, who: Identity, op: Operation, now: Timestamp): Decision {
    if !ValidOperation(op) then Plain(InvalidOperation)
    else
      match op.payload
      case AddMovement(m) => DecideMovement(t, who, m, now)
      case UpsertProduct(id, fields) => DecideUpsert(t, who, op.baseVersion, id, fields, now)
      case DeleteProduct(id, _) => DecideTombstone(t, who, op.baseVersion, id, now)
      case Undecodable => Plain(InvalidOperation)
  }

  lemma MovementIgnoresOutcomes(t: Tables, outcomes: map<OperationKey, SyncOperation>, who: Identity,
                                m: MovementRequest, now: Timestamp)
    ensures DecideMovement(t.(syncOps := outcomes), who, m, now) == DecideMovement(t, who, m, now)
  {
  }

  lemma ProductIgnoresOutcomes(t: Tables, outcomes: map<OperationKey, SyncOperation>, who: Identity,
                               baseVersion: Option<int>, id: Uuid, fields: Fields, now: Timestamp)
    ensures DecideUpsert(t.(syncOps := outcomes), who, baseVersion, id, fields, now) ==
      DecideUpsert(t, who, baseVersion, id, fields, now)
    ensures DecideTombstone(t.(syncOps := outcomes), who, baseVersion, id, now) ==
      DecideTombstone(t, who, baseVersion, id, now)
  {
  }

  /** Decisions read the domain tables, not the outcomes or the log. */
  lemma DecideIgnoresOutcomes(t: Tables, outcomes: map<OperationKey, SyncOperation>, who: Identity, op: Operation,
                              now: Timestamp)
    ensures Decide(t.(syncOps := outcomes), who, op, now) == Decide(t, who, op, now)
  {
    match op.payload
    case AddMovement(m) => MovementIgnoresOutcomes(t, outcomes, who, m, now);
    case UpsertProduct(id, fields) => ProductIgnoresOutcomes(t, outcomes, who, op.baseVersion, id, fields, now);
    case DeleteProduct(id, _) =>
      ProductIgnoresOutcomes(t, outcomes, who, op.baseVersion, id, Fields(None, None, "", None, "", None, None), now);
    case Undecodable =>
  }

  // ----- Effects -----

  function DomainEffect(t: Tables, d: Decision, now: Timestamp): Tables {
    match d
    case WriteProduct(p, _) => P.AfterWrite(t, p, now)
    case WriteMovement(m, _) => M.AfterAppend(t, m, now)
    case _ => t
  }

  function EntryOf(who: Identity, d: Decision, cursor: nat, now: Timestamp): ChangeLogEntry
    requires d.WriteProduct? || d.WriteMovement?
  {
    match d
    case WriteProduct(p, op) =>
      ChangeLogEntry(cursor, who.userId, ProductEntity, p.id, op, ProductPayload(ViewProduct(p)), who.deviceId, now)
    case WriteMovement(m, resolution) =>
      ChangeLogEntry(cursor, who.userId, MovementEntity, m.id, Upsert, MovementPayload(ViewMovement(m), resolution),
                     who.deviceId, now)
  }

  function ResultOf(t: Tables, opId: Uuid, d: Decision): OperationResult {
    match d
    case Reject(reason, state, stocktake) => OperationResult(opId, Rejected, None, Some(reason), state, stocktake)
    case WriteMovement(_, resolution) => OperationResult(opId, Applied, Some(t.lastSeq + 1), None, None, resolution)
    case _ => OperationResult(opId, Applied, Some(t.lastSeq + 1), None, None, None)
  }

  function OutcomeRow(who: Identity, result: OperationResult, clock: Clock): SyncOperation {
    SyncOperation(who.deviceId, result.opId, who.userId, result.status, result.reason, Encoded(result),
                  clock.transaction, Some(clock.service))
  }

  /** The complete effect: domain rows, log entry with its cursor, outcome. */
  function Complete(t: Tables, who: Identity, opId: Uuid, d: Decision, clock: Clock): Tables
    requires !d.Abandon?
  {
    var domain := DomainEffect(t, d, clock.transaction);
    var logged :=
      if d.Reject? then domain
      else domain.(lastSeq := t.lastSeq + 1,
                   changeLog := t.changeLog + [EntryOf(who, d, t.lastSeq + 1, clock.transaction)]);
    var key := OperationKey(who.deviceId, opId);
    logged.(syncOps := t.syncOps[key := OutcomeRow(who, ResultOf(t, opId, d), clock)])
  }

  // ----- One delivery of an operation -----

  datatype Answer = Error | Done(tables: Tables, result: OperationResult)

  function Replay(t: Tables, who: Identity, opId: Uuid): Answer {
    var key := OperationKey(who.deviceId, opId);
    if key !in t.syncOps || t.syncOps[key].userId != who.userId then Error
    else
      var stored := t.syncOps[key];
      if stored.deviceId != who.deviceId || stored.opId != opId then Error
      else if stored.response.EmptyObject? || stored.response.result.opId != opId
              || !ValidResult(stored.response.result) then Error
      else Done(t, stored.response.result)
  }

  predicate CanReserve(t: Tables, who: Identity, opId: Uuid) {
    DeviceOwned(t, who.userId, who.deviceId) && OperationKey(who.deviceId, opId) !in t.syncOps
  }

  /** ProcessOperation with no failure of the connection. */
  ghost function Process(t: Tables, who: Identity, op: Operation, clock: Clock): Answer {
    if NIL_UUID in {who.userId, who.deviceId, op.opId} then Error
    else if !CanReserve(t, who, op.opId) then Replay(t, who, op.opId)
    else
      var d := Decide(t, who, op, clock.transaction);
      if d.Abandon? then Error
      else Done(Complete(t, who, op.opId, d, clock), ResultOf(t, op.opId, d))
  }
}
