/** The service code, statement by statement, over the database of module
    Store, proved to refine the single-step functions of module SyncPolicy for
    every point at which the connection may break. */
module Services {
  import opened Prelude
  import opened Schema
  import opened Ledger
  import opened SyncPolicy
  import opened Store
  import E = Effects
  import I = Invariants
  import R = Runs
  import M = MovementPolicy
  import P = ProductPolicy

  // ----- Constraint mapping -----

  function MapMutationError(e: DbError): P.ProductError {
    if !e.Violates? then P.Unavailable
    else
      match e.constraint
      case ActiveBarcodeIndex => P.TakenBarcode
      case ProductsDeviceOwner => P.NotOwner
      case ProductsPkey => P.DuplicateProduct
      case _ => P.Unavailable
  }

  function MapMovementError(e: DbError): M.MovementError {
    if !e.Violates? then M.Unavailable
    else
      match e.constraint
      case MovementsDelta => M.BadDelta
      case MovementsKind => M.BadKind
      case MovementsDeviceOwner => M.NotOwner
      case MovementsReverses => M.BadReversal
      case MovementsPkey => M.DuplicateMovement
      case _ => M.Unavailable
  }

  // ----- Products -----

  method ClassifyProductMutationMiss(db: Database, userId: Uuid, id: Uuid) returns (e: P.ProductError)
    requires db.Open()
    modifies db
    ensures db.Continues() && db.savepoint == old(db.savepoint) && db.Tables() == old(db.Tables())
    ensures if db.Worked() then e == P.ClassifyMiss(db.products, userId, id) && !db.aborted else db.aborted
  {
    var found := db.GetProductByID(id);
    match found {
      case NoRows => e := P.NoProduct;
      case Failed(_) => e := P.Unavailable;
      case Row(product) =>
        if product.userId != userId {
          e := P.NotOwner;
        } else if !product.Active() {
          e := P.DeletedProduct;
        } else {
          e := P.StaleVersion;
        }
    }
  }

  /** A mutation answers as decided, or the transaction is aborted. */
  ghost predicate Mutated(before: Tables, db: Database, r: Result<Product, P.ProductError>, d: P.ProductDecision)
    reads db
  {
    match d
    case Refuse(e) => r == Err(e) && !db.aborted && db.Tables() == before
    case Clash(e) => r == Err(e) && db.aborted
    case Write(p) => r == Ok(p) && !db.aborted && db.Tables() == P.AfterWrite(before, p, db.now)
  }

  method CreateProductInTransaction(db: Database, id: Uuid, userId: Uuid, deviceId: Uuid, fields: Fields)
    returns (r: Result<Product, P.ProductError>)
    requires db.Open()
    modifies db
    ensures db.Continues() && db.savepoint == old(db.savepoint) && (old(db.aborted) ==> db.aborted)
    ensures db.Worked() ==>
      Mutated(old(db.Tables()), db, r, P.DecideCreate(old(db.Tables()), id, userId, deviceId, fields, db.now))
  {
    if id == NIL_UUID || userId == NIL_UUID || deviceId == NIL_UUID || !P.ValidFields(fields) {
      return Err(P.InvalidInput);
    }
    var inserted := db.InsertProduct(id, userId, deviceId, P.NormalizeFields(fields));
    if !inserted.Row? {
      return Err(if inserted.Failed? then MapMutationError(inserted.error) else P.Unavailable);
    }
    var balance := db.UpsertProductBalance(userId, id, 0, None);
    if !balance.Row? {
      return Err(if balance.Failed? then MapMutationError(balance.error) else P.Unavailable);
    }
    r := Ok(inserted.value);
  }

  method UpdateProductInTransaction(db: Database, id: Uuid, userId: Uuid, deviceId: Uuid, fields: Fields,
                                    baseVersion: int)
    returns (r: Result<Product, P.ProductError>)
    requires db.Open()
    modifies db
    ensures db.Continues() && db.savepoint == old(db.savepoint) && (old(db.aborted) ==> db.aborted)
    ensures db.Worked() ==>
      Mutated(old(db.Tables()), db, r,
              P.DecideUpdate(old(db.Tables()), id, userId, deviceId, fields, baseVersion, db.now))
  {
    if id == NIL_UUID || userId == NIL_UUID || deviceId == NIL_UUID || baseVersion <= 0 || !P.ValidFields(fields) {
      return Err(P.InvalidInput);
    }
    var updated := db.UpdateProduct(id, userId, deviceId, P.NormalizeFields(fields), baseVersion);
    match updated {
      case Row(product) => r := Ok(product);
      case Failed(e) => r := Err(MapMutationError(e));
      case NoRows =>
        var e := ClassifyProductMutationMiss(db, userId, id);
        r := Err(e);
    }
  }

  method SoftDeleteProductInTransaction(db: Database, id: Uuid, userId: Uuid, deviceId: Uuid, baseVersion: int)
    returns (r: Result<Product, P.ProductError>)
    requires db.Open()
    modifies db
    ensures db.Continues() && db.savepoint == old(db.savepoint) && (old(db.aborted) ==> db.aborted)
    ensures db.Worked() ==>
      Mutated(old(db.Tables()), db, r, P.DecideDelete(old(db.Tables()), id, userId, deviceId, baseVersion, db.now))
  {
    if id == NIL_UUID || userId == NIL_UUID || deviceId == NIL_UUID || baseVersion <= 0 {
      return Err(P.InvalidInput);
    }
    var deleted := db.SoftDeleteProduct(id, userId, deviceId, baseVersion);
    match deleted {
      case Row(product) => r := Ok(product);
      case Failed(e) => r := Err(MapMutationError(e));
      case NoRows =>
        var e := ClassifyProductMutationMiss(db, userId, id);
        r := Err(e);
    }
  }

  datatype Mutation = Create | Update(baseVersion: int)

  function DecideMutation(t: Tables, m: Mutation, id: Uuid, who: Identity, fields: Fields,
                          now: Timestamp): P.ProductDecision
  {
    match m
    case Create => P.DecideCreate(t, id, who.userId, who.deviceId, fields, now)
    case Update(baseVersion) => P.DecideUpdate(t, id, who.userId, who.deviceId, fields, baseVersion, now)
  }

  /** Runs a mutation under a savepoint. A taken barcode is undone, so the
      operation can still read its owner and store a rejection; every other
      violated constraint leaves the transaction aborted. */
  method RunProductMutationWithBarcodeRecovery(db: Database, m: Mutation, id: Uuid, who: Identity, fields: Fields)
    returns (r: Result<Product, P.ProductError>)
    requires db.Open() && db.savepoint.None?
    modifies db
    ensures db.Continues() && (old(db.aborted) ==> db.aborted)
    ensures db.Worked() ==>
      var d := DecideMutation(old(db.Tables()), m, id, who, fields, db.now);
      if d == P.Clash(P.TakenBarcode) then r == Err(P.TakenBarcode) && !db.aborted && db.Tables() == old(db.Tables())
      else Mutated(old(db.Tables()), db, r, d)
  {
    var saved := db.Savepoint();
    if saved.Failed? {
      return Err(P.Unavailable);
    }
    if m.Create? {
      r := CreateProductInTransaction(db, id, who.userId, who.deviceId, fields);
    } else {
      r := UpdateProductInTransaction(db, id, who.userId, who.deviceId, fields, m.baseVersion);
    }
    if r.Ok? {
      var released := db.ReleaseSavepoint();
      if released.Failed? {
        r := Err(P.Unavailable);
      }
    } else if r.error != P.TakenBarcode {
      var _ := db.ReleaseSavepoint();
    } else {
      var undone := db.RollbackToSavepoint();
      if undone.Failed? {
        return Err(P.Unavailable);
      }
      var released := db.ReleaseSavepoint();
      if released.Failed? {
        r := Err(P.Unavailable);
      }
    }
  }

  // ----- Movements -----

  method ClassifyProductMiss(db: Database, userId: Uuid, id: Uuid) returns (e: M.MovementError)
    requires db.Open()
    modifies db
    ensures db.Continues() && db.savepoint == old(db.savepoint) && db.Tables() == old(db.Tables())
    ensures if db.Worked() then e == M.ClassifyMiss(db.products, userId, id) && !db.aborted else db.aborted
  {
    var found := db.GetProductByID(id);
    match found {
      case NoRows => e := M.NoProduct;
      case Failed(_) => e := M.Unavailable;
      case Row(product) =>
        if product.userId != userId {
          e := M.NotOwner;
        } else if !product.Active() {
          e := M.DeletedProduct;
        } else {
          e := M.NoProduct;
        }
    }
  }

  type Appended = (StockMovement, Option<StocktakeResolution>)

  ghost predicate AppendedAs(before: Tables, db: Database, r: Result<Appended, M.MovementError>, d: M.AppendDecision)
    reads db
  {
    match d
    case Refuse(e) => r == Err(e) && !db.aborted && db.Tables() == before
    case Clash(e) => r == Err(e) && db.aborted
    case Append(m, resolution) =>
      r == Ok((m, resolution)) && !db.aborted && db.Tables() == M.AfterAppend(before, m, db.now)
  }

  /** The reversal target must exist, in the same account and product. */
  method CheckReversal(db: Database, input: M.AppendInput) returns (e: Option<M.MovementError>)
    requires db.Open()
    modifies db
    ensures db.Continues() && db.savepoint == old(db.savepoint) && db.Tables() == old(db.Tables())
    ensures old(db.aborted) ==> db.aborted
    ensures db.Worked() ==> e == M.ReversalError(db.movements, input) && !db.aborted
  {
    if input.reversesId.None? {
      return None;
    }
    var found := db.GetStockMovementByID(input.reversesId.value);
    match found {
      case NoRows => e := Some(M.NoMovement);
      case Failed(_) => e := Some(M.Unavailable);
      case Row(original) =>
        if original.userId != input.userId {
          e := Some(M.NotOwner);
        } else if original.productId != input.productId {
          e := Some(M.BadReversal);
        } else {
          e := None;
        }
    }
  }

  /** The canonical stocktake and the ledger balance, unless the new stocktake
      is behind the canonical one. */
  method ReadStocktakeStanding(db: Database, input: M.AppendInput)
    returns (r: Result<(Option<StockMovement>, int), M.MovementError>)
    requires db.Open()
    modifies db
    ensures db.Continues() && db.savepoint == old(db.savepoint) && db.Tables() == old(db.Tables())
    ensures old(db.aborted) ==> db.aborted
    ensures db.Worked() ==>
      var latest := LatestStocktake(db.movements, input.userId, input.productId);
      var qty := LedgerQty(db.movements, input.userId, input.productId);
      && !db.aborted
      && r == if latest.Some? && !KeyBefore(latest.value.occurredAt, latest.value.id, input.occurredAt, input.id)
              then Err(M.Displaced(M.Outranking(latest.value, qty, input)))
              else Ok((latest, qty))
  {
    var found := db.GetLatestStocktake(input.userId, input.productId);
    if found.Failed? {
      return Err(M.Unavailable);
    }
    var latest := if found.Row? then Some(found.value) else None;
    var canonical := db.GetProductLedgerBalance(input.userId, input.productId);
    if !canonical.Row? {
      return Err(M.Unavailable);
    }
    var qty := canonical.value.qty;
    if latest.Some? && !KeyBefore(latest.value.occurredAt, latest.value.id, input.occurredAt, input.id) {
      return Err(M.Displaced(M.Outranking(latest.value, qty, input)));
    }
    r := Ok((latest, qty));
  }

  /** Lock the product, check the reversal, order the stocktake, recompute its
      delta from the ledger, insert the row and increment the projection. */
  method AppendInTransactionWithPolicy(db: Database, input: M.AppendInput)
    returns (r: Result<Appended, M.MovementError>)
    requires db.Open() && !input.kind.UnknownKind? && (input.kind.Stocktake? ==> input.countedQty.Some?)
    modifies db
    ensures db.Continues() && db.savepoint == old(db.savepoint) && (old(db.aborted) ==> db.aborted)
    ensures db.Worked() ==> AppendedAs(old(db.Tables()), db, r, M.DecideAppend(old(db.Tables()), input, db.now))
  {
    var product := db.GetProductForUpdate(input.userId, input.productId);
    if product.NoRows? {
      var e := ClassifyProductMiss(db, input.userId, input.productId);
      return Err(e);
    }
    if product.Failed? {
      return Err(M.Unavailable);
    }
    var reversal := CheckReversal(db, input);
    if reversal.Some? {
      return Err(reversal.value);
    }
    var latest: Option<StockMovement>, qty := None, 0;
    var delta: int := input.delta;
    if input.kind.Stocktake? {
      var standing := ReadStocktakeStanding(db, input);
      if standing.Err? {
        return Err(standing.error);
      }
      latest, qty := standing.value.0, standing.value.1;
      delta := input.countedQty.value - qty;
    }
    if delta == 0 || delta < MIN_INT32 || delta > MAX_INT32 {
      return Err(M.BadDelta);
    }
    r := InsertAndProject(db, input, delta, latest, qty);
  }

  /** A correction that passed the check satisfies the foreign keys. */
  lemma CheckedReversal(ms: seq<StockMovement>, input: M.AppendInput, m: StockMovement)
    requires M.ReversalError(ms, input).None? && m.reversesId == input.reversesId && m.userId == input.userId
    ensures ReversesOwnRow(ms + [m], m)
  {
    if m.reversesId.Some? {
      var original := FindMovement(ms, m.reversesId.value).value;
      var i :| 0 <= i < |ms| && ms[i] == original;
      assert (ms + [m])[i] == original;
    }
  }

  method InsertAndProject(db: Database, input: M.AppendInput, delta: int32, latest: Option<StockMovement>, qty: int)
    returns (r: Result<Appended, M.MovementError>)
    requires db.Open() && delta != 0 && !input.kind.UnknownKind?
    requires !db.aborted ==> M.ReversalError(db.movements, input).None?
    modifies db
    ensures db.Continues() && db.savepoint == old(db.savepoint) && (old(db.aborted) ==> db.aborted)
    ensures db.Worked() ==>
      var resolution :=
        if input.kind.Stocktake? then Some(M.AcceptedStocktake(input, delta, qty, latest, db.now)) else None;
      AppendedAs(old(db.Tables()), db, r,
                 if M.ActiveAndOwned(old(db.products), input.userId, input.productId)
                 then M.DecideInsert(old(db.Tables()), input, delta, resolution, db.now)
                 else M.Refuse(M.ClassifyMiss(old(db.products), input.userId, input.productId)))
  {
    if !db.aborted {
      CheckedReversal(db.movements, input, M.RowOf(input, delta, db.now));
    }
    var inserted := db.InsertStockMovement(input, delta);
    if inserted.NoRows? {
      var e := ClassifyProductMiss(db, input.userId, input.productId);
      return Err(e);
    }
    if inserted.Failed? {
      return Err(MapMovementError(inserted.error));
    }
    var m := inserted.value;
    var incremented := db.IncrementProductBalance(input.userId, input.productId, m.delta, m.occurredAt);
    if !incremented.Row? {
      return Err(M.Unavailable);
    }
    if !input.kind.Stocktake? {
      return Ok((m, None));
    }
    var displaced := if latest.Some? then [M.IntentOfMovement(latest.value)] else [];
    var intent := M.IntentOfMovement(m);
    r := Ok((m, Some(StocktakeResolution(input.productId, qty + m.delta, intent, intent, displaced))));
  }

  // ----- Applying one operation -----

  /** What the change log will record about an accepted operation. */
  datatype OperationChange = OperationChange(entity: Entity, op: ChangeOp, entityId: Uuid, payload: ChangePayload)

  type AppliedOperation = (OperationResult, Option<OperationChange>)

  function RejectedResult(opId: Uuid, reason: Reason): OperationResult {
    OperationResult(opId, Rejected, None, Some(reason), None, None)
  }

  function ChangeOf(d: Decision): Option<OperationChange> {
    match d
    case WriteProduct(p, op) => Some(OperationChange(ProductEntity, op, p.id, ProductPayload(ViewProduct(p))))
    case WriteMovement(m, resolution) =>
      Some(OperationChange(MovementEntity, Upsert, m.id, MovementPayload(ViewMovement(m), resolution)))
    case _ => None
  }

  /** The decided result, still without a cursor. */
  function ResultBeforeLog(opId: Uuid, d: Decision): OperationResult {
    match d
    case Reject(reason, state, stocktake) => OperationResult(opId, Rejected, None, Some(reason), state, stocktake)
    case WriteMovement(_, resolution) => OperationResult(opId, Applied, None, None, None, resolution)
    case _ => OperationResult(opId, Applied, None, None, None, None)
  }

  /** The operation was applied as decided. Where the decision is to abandon
      it, the code has an error, or an aborted transaction that cannot be
      finalized. */
  ghost predicate AppliedAs(before: Tables, db: Database, opId: Uuid, r: Result<AppliedOperation, DbError>, d: Decision)
    reads db
  {
    if d.Abandon? then db.aborted || r.Err?
    else
      && !db.aborted && r == Ok((ResultBeforeLog(opId, d), ChangeOf(d)))
      && db.Tables() == DomainEffect(before, d, db.now)
  }

  method ApplyMovement(db: Database, who: Identity, opId: Uuid, m: MovementRequest)
    returns (r: Result<AppliedOperation, DbError>)
    requires db.Open()
    modifies db
    ensures db.Continues() && db.savepoint == old(db.savepoint) && (old(db.aborted) ==> db.aborted)
    ensures db.Worked() ==> AppliedAs(old(db.Tables()), db, opId, r, DecideMovement(old(db.Tables()), who, m, db.now))
  {
    if m.deviceId.Some? && m.deviceId.value != who.deviceId {
      return Ok((RejectedResult(opId, DeviceMismatch), None));
    }
    var normalized := M.NormalizeAppend(AppendInputOf(m, who));
    var appended: Result<Appended, M.MovementError>;
    if normalized.Err? {
      appended := Err(normalized.error);
    } else {
      appended := AppendInTransactionWithPolicy(db, normalized.value);
    }
    if appended.Err? {
      var e := appended.error;
      if e.Displaced? {
        return Ok((RejectedResult(opId, StocktakeDisplaced).(stocktake := Some(e.resolution)), None));
      }
      var reason := MovementReason(e);
      if reason.Some? {
        return Ok((RejectedResult(opId, reason.value), None));
      }
      return Err(TransactionAborted);
    }
    var (movement, resolution) := appended.value;
    r := Ok((OperationResult(opId, Applied, None, None, None, resolution),
             Some(OperationChange(MovementEntity, Upsert, movement.id,
                                  MovementPayload(ViewMovement(movement), resolution)))));
  }

  /** Adds the account's own row to a rejection, if there is one. */
  method AttachCanonicalProductState(db: Database, userId: Uuid, id: Uuid, result: OperationResult)
    returns (r: Result<OperationResult, DbError>)
    requires db.Open()
    modifies db
    ensures db.Continues() && db.savepoint == old(db.savepoint) && db.Tables() == old(db.Tables())
    ensures if db.Worked()
            then
              && !db.aborted
              && var state := OwnState(db.Tables(), userId, id);
                 r == Ok(if state.Some? then result.(serverState := state) else result)
            else db.aborted
  {
    var found := db.GetProductByID(id);
    if found.Failed? {
      return Err(found.error);
    }
    if found.NoRows? || found.value.userId != userId {
      return Ok(result);
    }
    r := Ok(result.(serverState := Some(ViewProduct(found.value))));
  }

  method AttachBarcodeOwnerState(db: Database, userId: Uuid, barcode: Option<string>, result: OperationResult)
    returns (r: Result<OperationResult, DbError>)
    requires db.Open()
    modifies db
    ensures db.Continues() && db.savepoint == old(db.savepoint) && db.Tables() == old(db.Tables())
    ensures old(db.aborted) ==> db.aborted
    ensures db.Worked() ==>
      && !db.aborted
      && var state := BarcodeOwnerState(db.Tables(), userId, barcode);
         r == Ok(if state.Some? then result.(serverState := state) else result)
  {
    if barcode.None? {
      return Ok(result);
    }
    var found := db.GetActiveProductByBarcode(userId, barcode.value);
    if found.Failed? {
      return Err(found.error);
    }
    if found.NoRows? {
      return Ok(result);
    }
    r := Ok(result.(serverState := Some(ViewProduct(found.value))));
  }

  /** Turns a product error into the stored rejection, with the state that
      explains it. */
  method RejectProductError(db: Database, who: Identity, opId: Uuid, id: Uuid, barcode: Option<string>,
                            e: P.ProductError)
    returns (r: Result<AppliedOperation, DbError>)
    requires db.Open()
    modifies db
    ensures db.Continues() && db.savepoint == old(db.savepoint) && db.Tables() == old(db.Tables())
    ensures old(db.aborted) ==> db.aborted
    ensures db.Worked() && ProductReason(e).None? ==> r.Err?
    ensures db.Worked() && ProductReason(e).Some? ==>
      && !db.aborted
      && var state := if e.TakenBarcode? then BarcodeOwnerState(db.Tables(), who.userId, NormalizeOptional(barcode))
                      else if e.StaleVersion? || e.DeletedProduct? then OwnState(db.Tables(), who.userId, id)
                      else None;
         r == Ok((OperationResult(opId, Rejected, None, ProductReason(e), state, None), None))
  {
    var reason := ProductReason(e);
    if reason.None? {
      return Err(TransactionAborted);
    }
    var attached := Ok(RejectedResult(opId, reason.value));
    if e.TakenBarcode? {
      attached := AttachBarcodeOwnerState(db, who.userId, NormalizeOptional(barcode), attached.value);
    }
    if attached.Ok? && (e.StaleVersion? || e.DeletedProduct?) {
      attached := AttachCanonicalProductState(db, who.userId, id, attached.value);
    }
    r := if attached.Err? then Err(attached.error) else Ok((attached.value, None));
  }

  method ApplyProductUpsert(db: Database, who: Identity, op: Operation, id: Uuid, fields: Fields)
    returns (r: Result<AppliedOperation, DbError>)
    requires db.Open() && db.savepoint.None?
    modifies db
    ensures db.Continues() && (old(db.aborted) ==> db.aborted)
    ensures db.Worked() ==>
      AppliedAs(old(db.Tables()), db, op.opId, r,
                DecideUpsert(old(db.Tables()), who, op.baseVersion, id, fields, db.now))
  {
    var current := db.GetProductByID(id);
    var mutation: Mutation;
    match current {
      case Failed(e) => return Err(e);
      case NoRows =>
        if op.baseVersion.Some? && op.baseVersion.value != 0 {
          return Ok((RejectedResult(op.opId, InvalidBaseVersion), None));
        }
        mutation := Create;
      case Row(product) =>
        if product.userId != who.userId {
          return Ok((RejectedResult(op.opId, OwnershipViolation), None));
        }
        if !product.Active() {
          return Ok((RejectedResult(op.opId, ProductDeleted).(serverState := Some(ViewProduct(product))), None));
        }
        if op.baseVersion.None? || op.baseVersion.value <= 0 {
          return Ok((RejectedResult(op.opId, InvalidBaseVersion), None));
        }
        mutation := Update(op.baseVersion.value);
    }
    var written := RunProductMutationWithBarcodeRecovery(db, mutation, id, who, fields);
    if written.Err? {
      r := RejectProductError(db, who, op.opId, id, fields.barcode, written.error);
    } else {
      r := Ok((OperationResult(op.opId, Applied, None, None, None, None),
               Some(OperationChange(ProductEntity, Upsert, written.value.id,
                                    ProductPayload(ViewProduct(written.value))))));
    }
  }

  method ApplyProductDelete(db: Database, who: Identity, op: Operation, id: Uuid)
    returns (r: Result<AppliedOperation, DbError>)
    requires db.Open()
    modifies db
    ensures db.Continues() && db.savepoint == old(db.savepoint) && (old(db.aborted) ==> db.aborted)
    ensures db.Worked() ==>
      AppliedAs(old(db.Tables()), db, op.opId, r, DecideTombstone(old(db.Tables()), who, op.baseVersion, id, db.now))
  {
    if op.baseVersion.None? || op.baseVersion.value <= 0 {
      return Ok((RejectedResult(op.opId, InvalidBaseVersion), None));
    }
    var written := SoftDeleteProductInTransaction(db, id, who.userId, who.deviceId, op.baseVersion.value);
    if written.Err? {
      r := RejectProductError(db, who, op.opId, id, None, written.error);
    } else {
      r := Ok((OperationResult(op.opId, Applied, None, None, None, None),
               Some(OperationChange(ProductEntity, Delete, written.value.id,
                                    ProductPayload(ViewProduct(written.value))))));
    }
  }

  method ApplyOperation(db: Database, who: Identity, op: Operation) returns (r: Result<AppliedOperation, DbError>)
    requires db.Open() && db.savepoint.None?
    modifies db
    ensures db.Continues() && (old(db.aborted) ==> db.aborted)
    ensures db.Worked() ==> AppliedAs(old(db.Tables()), db, op.opId, r, Decide(old(db.Tables()), who, op, db.now))
  {
    if !ValidOperation(op) {
      return Ok((RejectedResult(op.opId, InvalidOperation), None));
    }
    match op.payload {
      case AddMovement(m) => r := ApplyMovement(db, who, op.opId, m);
      case UpsertProduct(id, fields) => r := ApplyProductUpsert(db, who, op, id, fields);
      case DeleteProduct(id, _) => r := ApplyProductDelete(db, who, op, id);
      case Undecodable => r := Ok((RejectedResult(op.opId, InvalidOperation), None));
    }
  }

  // ----- One operation in one transaction -----

  datatype SyncError = InvalidIdentity | EmptyOperationId | InvalidStoredResponse | Database(error: DbError)

  method ReplayStoredOperation(who: Identity, opId: Uuid, stored: SyncOperation)
    returns (r: Result<OperationResult, SyncError>)
    ensures var intact :=
        && stored.userId == who.userId && stored.deviceId == who.deviceId && stored.opId == opId
        && stored.response.Encoded? && stored.response.result.opId == opId && opId != NIL_UUID
        && match stored.response.result
           case OperationResult(_, status, cursor, reason, state, _) =>
             || (status.Applied? && cursor.Some? && cursor.value > 0 && reason == None && state == None)
             || (status.Rejected? && reason.Some? && cursor == None);
      r == if intact then Ok(stored.response.result) else Err(InvalidStoredResponse)
  {
    if stored.userId != who.userId || stored.deviceId != who.deviceId || stored.opId != opId {
      return Err(InvalidStoredResponse);
    }
    if stored.response.EmptyObject? || stored.response.result.opId != opId || !ValidResult(stored.response.result) {
      return Err(InvalidStoredResponse);
    }
    r := Ok(stored.response.result);
  }

  /** Append the change, if there is one, and store the final outcome over the
      reservation. */
  method LogAndFinalize(db: Database, who: Identity, opId: Uuid, unlogged: OperationResult,
                        change: Option<OperationChange>, serviceNow: Timestamp, ghost start: Tables, ghost d: Decision)
    returns (r: Result<OperationResult, SyncError>)
    requires db.Open() && CanReserve(start, who, opId)
    requires !db.aborted ==>
      var key := OperationKey(who.deviceId, opId);
      var reservation := SyncOperation(who.deviceId, opId, who.userId, Processing, None, EmptyObject, db.now, None);
      && !d.Abandon? && unlogged == ResultBeforeLog(opId, d) && change == ChangeOf(d)
      && db.Tables() == DomainEffect(start, d, db.now).(syncOps := start.syncOps[key := reservation])
    modifies db
    ensures db.Continues()
    ensures old(db.aborted) ==> r.Err?
    ensures db.Worked() ==>
      && r == Ok(ResultOf(start, opId, d)) && !db.aborted
      && db.Tables() == Complete(start, who, opId, d, Clock(db.now, serviceNow))
  {
    var result := unlogged;
    if change.Some? {
      var c := change.value;
      var entry := db.AppendChangeLog(who.userId, c.entity, c.entityId, c.op, c.payload, who.deviceId);
      if !entry.Row? {
        return Err(Database(if entry.Failed? then entry.error else TransactionAborted));
      }
      result := result.(cursor := Some(entry.value.cursor));
    }
    var finalized :=
      db.UpdateSyncOperation(who.userId, who.deviceId, opId, result.status, result.reason, Encoded(result), serviceNow);
    if !finalized.Row? {
      return Err(Database(if finalized.Failed? then finalized.error else TransactionAborted));
    }
    r := Ok(result);
  }

  /** Reserve the key or replay its outcome; apply; log; finalize. */
  method ProcessInTransaction(db: Database, who: Identity, op: Operation, serviceNow: Timestamp)
    returns (r: Result<OperationResult, SyncError>)
    requires db.Open() && db.savepoint.None? && NIL_UUID !in {who.userId, who.deviceId}
    modifies db
    ensures db.Continues()
    ensures db.Worked() ==>
      match Process(old(db.Tables()), who, op, Clock(db.now, serviceNow))
      case Done(tables, result) => r == Ok(result) && !db.aborted && db.Tables() == tables
      case Error => r.Err?
  {
    if op.opId == NIL_UUID {
      return Err(EmptyOperationId);
    }
    ghost var start := db.Tables();
    var reserved := db.TryInsertSyncOperation(who.userId, who.deviceId, op.opId);
    if reserved.Failed? {
      return Err(Database(reserved.error));
    }
    if reserved.NoRows? {
      var stored := db.GetSyncOperation(who.userId, who.deviceId, op.opId);
      if !stored.Row? {
        return Err(InvalidStoredResponse);
      }
      r := ReplayStoredOperation(who, op.opId, stored.value);
      return;
    }
    ghost var d := Decide(start, who, op, db.now);
    DecideIgnoresOutcomes(start, db.syncOps, who, op, db.now);
    var applied := ApplyOperation(db, who, op);
    if applied.Err? {
      return Err(Database(applied.error));
    }
    var (unlogged, change) := applied.value;
    r := LogAndFinalize(db, who, op.opId, unlogged, change, serviceNow, start, d);
  }

  /** The commit discipline of one operation, whatever breaks and whenever.
      An answer means the complete effect is stored. An error without a lost
      connection means the decision was to abandon the operation. With a lost
      connection the tables are untouched, unless the break hit a COMMIT that
      the server had already made durable: then the effect is complete. An
      ordinary movement that nothing stands in the way of is applied. */
  method ProcessOperation(db: Database, who: Identity, op: Operation, clock: Clock, fault: Fault)
    returns (r: Result<OperationResult, SyncError>)
    requires db.Valid() && !db.inTransaction
    modifies db
    ensures db.Valid() && !db.inTransaction
    ensures var answer := Process(old(db.Tables()), who, op, clock);
      && (r.Ok? ==> answer == Done(db.Tables(), r.value))
      && (r.Err? ==>
            db.Tables() == old(db.Tables())
              || (fault.LostAfter? && fault.durable && answer.Done? && db.Tables() == answer.tables))
      && (fault.Healthy? ==> (r.Ok? <==> answer.Done?))
    ensures fault.Healthy? && I.Valid(old(db.Tables())) && E.Acceptable(old(db.Tables()), who, op) ==>
      r.Ok? && E.Accepted(old(db.Tables()), db.Tables(), who, op, clock, r.value)
    ensures exists fate: R.Fate ::
      var d := R.Delivery(who, op, clock, fate);
      && db.Tables() == R.Deliver(old(db.Tables()), d)
      && R.Reply(old(db.Tables()), d) == (if r.Ok? then Some(r.value) else None)
  {
    ghost var start := db.Tables();
    ghost var answered := R.Delivery(who, op, clock, R.Answered);
    ghost var silent := R.Delivery(who, op, clock, R.Silent);
    ghost var dropped := R.Delivery(who, op, clock, R.Dropped);
    assert R.Deliver(start, dropped) == start && R.Reply(start, dropped) == None;
    if I.Valid(start) && E.Acceptable(start, who, op) {
      E.AcceptableIsApplied(start, who, op, clock);
    }
    if who.userId == NIL_UUID || who.deviceId == NIL_UUID {
      return Err(InvalidIdentity);
    }
    db.Begin(fault, clock.transaction);
    r := ProcessInTransaction(db, who, op, clock.service);
    if r.Err? {
      db.Rollback();
      return;
    }
    var committed := db.Commit();
    if !committed {
      r := Err(Database(ConnectionLost));
      assert db.Tables() == R.Deliver(start, silent) || db.Tables() == R.Deliver(start, dropped);
      assert R.Reply(start, silent) == None;
    } else {
      assert db.Tables() == R.Deliver(start, answered);
      assert R.Reply(start, answered) == Some(r.value);
    }
  }
}
