/** What one operation does, from the fields of the request to the columns of
    every table. Nothing here names a function that decides or writes: the
    conditions are those of the request and the rows, written out, and the
    cases of each kind of operation leave nothing open. */
module Effects {
  import opened Prelude
  import opened Schema
  import opened Ledger
  import opened SyncPolicy
  import opened Invariants
  import opened Runs
  import M = MovementPolicy

  // ----- The request's own form -----

  /** A named caller on a registered device of its account, and a key without
      an outcome. */
  predicate Fresh(t: Tables, who: Identity, op: Operation) {
    && who.userId != NIL_UUID && who.deviceId != NIL_UUID && op.opId != NIL_UUID
    && who.deviceId in t.devices && t.devices[who.deviceId] == who.userId
    && OperationKey(who.deviceId, op.opId) !in t.syncOps
  }

  /** A movement other than a stocktake that the envelope check lets through. */
  predicate SoundMovement(op: Operation) {
    && op.opId != NIL_UUID && op.baseVersion == None && op.payload.AddMovement?
    && var m := op.payload.movement;
       && m.kind in {Receive, Issue, Adjust}
       && m.id != NIL_UUID && m.productId != NIL_UUID && m.delta != 0 && m.countedQty == None
       && m.occurredAt != ZERO_TIME && m.rawOccurredAt != Some(ZERO_TIME) && m.deviceId != Some(NIL_UUID)
       && m.reversesId != Some(NIL_UUID) && (m.reversesId == None || m.kind == Adjust)
  }

  /** The same for a stocktake: it has a count and reverses nothing. */
  predicate SoundStocktake(op: Operation) {
    && op.opId != NIL_UUID && op.baseVersion == None && op.payload.AddMovement?
    && var m := op.payload.movement;
       && m.kind == Stocktake
       && m.id != NIL_UUID && m.productId != NIL_UUID && m.delta != 0
       && m.countedQty.Some? && m.countedQty.value >= 0 && m.reversesId == None
       && m.occurredAt != ZERO_TIME && m.rawOccurredAt != Some(ZERO_TIME) && m.deviceId != Some(NIL_UUID)
  }

  predicate SoundUpsert(op: Operation) {
    && op.opId != NIL_UUID && op.payload.UpsertProduct? && op.payload.id != NIL_UUID
    && (op.baseVersion == None || op.baseVersion.value >= 0)
    && op.payload.fields.name != ""
    && (op.payload.fields.minStock == None || op.payload.fields.minStock.value >= 0)
  }

  predicate SoundDelete(op: Operation) {
    && op.opId != NIL_UUID && op.payload.DeleteProduct? && op.payload.id != NIL_UUID
    && op.baseVersion.Some? && op.baseVersion.value > 0
    && op.payload.deletedAt != Some(ZERO_TIME)
  }

  predicate Sound(op: Operation) {
    SoundMovement(op) || SoundStocktake(op) || SoundUpsert(op) || SoundDelete(op)
  }

  /** An operation is refused as invalid exactly when one of these fails,
      whoever sends it and whatever the tables hold. */
  lemma InvalidOperationExact(t: Tables, who: Identity, op: Operation, now: Timestamp)
    ensures Decide(t, who, op, now) == Reject(InvalidOperation, None, None) <==> !Sound(op)
    ensures ValidOperation(op) <==> Sound(op)
  {
  }

  // ----- How an operation ends -----

  /** Refused: the outcome is stored under the key, and nothing else changes. */
  ghost predicate Refused(t: Tables, who: Identity, op: Operation, clock: Clock, reason: Reason,
                          state: Option<ProductView>, stocktake: Option<StocktakeResolution>)
  {
    var result := OperationResult(op.opId, Status.Rejected, None, Some(reason), state, stocktake);
    var row := SyncOperation(who.deviceId, op.opId, who.userId, Status.Rejected, Some(reason), Encoded(result),
                             clock.transaction, Some(clock.service));
    Process(t, who, op, clock) ==
      Done(t.(syncOps := t.syncOps[OperationKey(who.deviceId, op.opId) := row]), result)
  }

  /** Applied: the domain rows are as given, the log has one more entry, under
      the next cursor, and the outcome names that cursor. */
  ghost predicate Applies(t: Tables, who: Identity, op: Operation, clock: Clock, domain: Tables,
                          entity: Entity, id: Uuid, change: ChangeOp, payload: ChangePayload,
                          stocktake: Option<StocktakeResolution>)
  {
    var cursor := t.lastSeq + 1;
    var result := OperationResult(op.opId, Status.Applied, Some(cursor), None, None, stocktake);
    var row := SyncOperation(who.deviceId, op.opId, who.userId, Status.Applied, None, Encoded(result),
                             clock.transaction, Some(clock.service));
    var entry := ChangeLogEntry(cursor, who.userId, entity, id, change, payload, who.deviceId, clock.transaction);
    && domain.syncOps == t.syncOps && domain.changeLog == t.changeLog && domain.lastSeq == t.lastSeq
    && domain.devices == t.devices
    && Process(t, who, op, clock) ==
       Done(domain.(lastSeq := cursor, changeLog := t.changeLog + [entry],
                    syncOps := t.syncOps[OperationKey(who.deviceId, op.opId) := row]), result)
  }

  /** Not completed: nothing at all is stored. */
  ghost predicate Aborted(t: Tables, who: Identity, op: Operation, clock: Clock) {
    Process(t, who, op, clock) == Error
  }

  /** A decision taken for a fresh key is completed. */
  lemma ProcessCompletes(t: Tables, who: Identity, op: Operation, clock: Clock, d: Decision)
    requires Fresh(t, who, op) && d == Decide(t, who, op, clock.transaction) && !d.Abandon?
    ensures Process(t, who, op, clock) == Done(Complete(t, who, op.opId, d, clock), ResultOf(t, op.opId, d))
  {
  }

  lemma RejectionRefuses(t: Tables, who: Identity, op: Operation, clock: Clock, d: Decision)
    requires Fresh(t, who, op) && d == Decide(t, who, op, clock.transaction) && d.Reject?
    ensures Refused(t, who, op, clock, d.reason, d.serverState, d.stocktake)
  {
    ProcessCompletes(t, who, op, clock, d);
    assert Complete(t, who, op.opId, d, clock) ==
      t.(syncOps := t.syncOps[OperationKey(who.deviceId, op.opId) :=
                                OutcomeRow(who, ResultOf(t, op.opId, d), clock)]);
  }

  // ----- Without a fresh key -----

  /** A repeated operation is answered with what is stored, if it is the
      account's own; a nameless caller, a nil key and an unregistered device
      get nothing. */
  lemma NotFresh(t: Tables, who: Identity, op: Operation, clock: Clock)
    requires Valid(t) && !Fresh(t, who, op)
    ensures var key := OperationKey(who.deviceId, op.opId);
      if key in t.syncOps && t.syncOps[key].userId == who.userId && NIL_UUID !in {who.userId, who.deviceId, op.opId}
      then t.syncOps[key].response.Encoded? && Process(t, who, op, clock) == Done(t, t.syncOps[key].response.result)
      else Process(t, who, op, clock) == Error
  {
    var key := OperationKey(who.deviceId, op.opId);
    if key in t.syncOps {
      assert OutcomeSound(t, key);
    }
  }

  // ----- Movements -----

  /** The movement was sent from the device that it names, if it names one. */
  predicate FromCaller(m: MovementRequest, who: Identity) {
    m.deviceId == None || m.deviceId == Some(who.deviceId)
  }

  /** The product is an active one of the caller's account. */
  predicate OnShelf(t: Tables, who: Identity, productId: Uuid) {
    productId in t.products && t.products[productId].userId == who.userId && t.products[productId].deletedAt == None
  }

  predicate IdTaken(t: Tables, id: Uuid) {
    exists i | 0 <= i < |t.movements| :: t.movements[i].id == id
  }

  /** What the movement corrects, if anything, is a movement of the same
      product and account. */
  predicate CorrectsOwn(t: Tables, who: Identity, m: MovementRequest) {
    m.reversesId == None ||
    exists i | 0 <= i < |t.movements| ::
      && t.movements[i].id == m.reversesId.value
      && t.movements[i].userId == who.userId && t.movements[i].productId == m.productId
  }

  /** The columns of the ledger row that a request becomes. */
  predicate RowFor(row: StockMovement, m: MovementRequest, who: Identity, delta: int, now: Timestamp) {
    && row.id == m.id && row.userId == who.userId && row.productId == m.productId
    && row.delta == delta && row.kind == m.kind
    && row.note == (if m.note == Some("") then None else m.note)
    && row.occurredAt == m.occurredAt
    && row.rawOccurredAt == (if m.rawOccurredAt.Some? then m.rawOccurredAt.value else m.occurredAt)
    && row.clockOffsetMs == m.clockOffsetMs && row.countedQty == m.countedQty && row.reversesId == m.reversesId
    && row.deviceId == who.deviceId && row.serverCreatedAt == now
  }

  /** The balance row behind one more movement: never an earlier last time. */
  predicate BalanceBehind(next: ProductBalance, was: ProductBalance, delta: int, at: Timestamp, now: Timestamp) {
    && next.qty == was.qty + delta && next.updatedAt == now
    && next.lastMovementAt ==
       (if was.lastMovementAt.Some? && was.lastMovementAt.value >= at then was.lastMovementAt else Some(at))
  }

  /** One more ledger row and the product's balance moved by its delta; the log
      carries every column of the row but the account. */
  ghost predicate Appended(t: Tables, who: Identity, op: Operation, clock: Clock, delta: int,
                           stocktake: Option<StocktakeResolution>)
    requires op.payload.AddMovement?
  {
    var m := op.payload.movement;
    m.productId in t.balances &&
    exists row: StockMovement, balance: ProductBalance ::
      && RowFor(row, m, who, delta, clock.transaction)
      && BalanceBehind(balance, t.balances[m.productId], delta, m.occurredAt, clock.transaction)
      && Applies(t, who, op, clock,
                 t.(movements := t.movements + [row], balances := t.balances[m.productId := balance]),
                 MovementEntity, m.id, Upsert, MovementPayload(ViewMovement(row), stocktake), stocktake)
  }

  /** The row that a request names for correction, told apart by its columns. */
  predicate CorrectsForeign(t: Tables, who: Identity, m: MovementRequest) {
    m.reversesId.Some? &&
    exists i | 0 <= i < |t.movements| :: t.movements[i].id == m.reversesId.value && t.movements[i].userId != who.userId
  }

  predicate CorrectsElsewhere(t: Tables, who: Identity, m: MovementRequest) {
    m.reversesId.Some? &&
    exists i | 0 <= i < |t.movements| ::
      && t.movements[i].id == m.reversesId.value
      && t.movements[i].userId == who.userId && t.movements[i].productId != m.productId
  }

  lemma FoundById(ms: seq<StockMovement>, id: Uuid, i: nat)
    requires i < |ms| && ms[i].id == id && forall j, k | 0 <= j < k < |ms| :: ms[j].id != ms[k].id
    ensures FindMovement(ms, id) == Some(ms[i])
  {
    assert MovementExists(ms, id);
    var found := FindMovement(ms, id).value;
    var k :| 0 <= k < |ms| && ms[k] == found;
  }

  lemma MovementAddressed(t: Tables, who: Identity, op: Operation, clock: Clock)
    requires Fresh(t, who, op) && op.payload.AddMovement? && op.payload.movement.kind != Stocktake
    ensures var m := op.payload.movement;
      var sent := SoundMovement(op) && FromCaller(m, who);
      && (!SoundMovement(op) ==> Refused(t, who, op, clock, InvalidOperation, None, None))
      && (SoundMovement(op) && !FromCaller(m, who) ==> Refused(t, who, op, clock, DeviceMismatch, None, None))
      && (sent && !OnShelf(t, who, m.productId) ==>
            Refused(t, who, op, clock, WhyNotOnShelf(t, who, m.productId), None, None))
  {
  }

  /** Missing, another account's, or deleted. */
  function WhyNotOnShelf(t: Tables, who: Identity, productId: Uuid): Reason {
    if productId !in t.products then ProductNotFound
    else if t.products[productId].userId != who.userId then OwnershipViolation
    else ProductDeleted
  }

  lemma DecidesCorrection(t: Tables, who: Identity, op: Operation, now: Timestamp)
    requires Fresh(t, who, op) && SoundMovement(op) && FromCaller(op.payload.movement, who)
    requires OnShelf(t, who, op.payload.movement.productId) && op.payload.movement.reversesId.Some?
    ensures var m := op.payload.movement;
      var target := FindMovement(t.movements, m.reversesId.value);
      && (target.None? ==> Decide(t, who, op, now) == Reject(MovementNotFound, None, None))
      && (target.Some? && target.value.userId != who.userId ==>
            Decide(t, who, op, now) == Reject(OwnershipViolation, None, None))
      && (target.Some? && target.value.userId == who.userId && target.value.productId != m.productId ==>
            Decide(t, who, op, now) == Reject(InvalidReversal, None, None))
  {
  }

  lemma MovementCorrects(t: Tables, who: Identity, op: Operation, clock: Clock)
    requires LedgerSound(t) && Fresh(t, who, op) && SoundMovement(op) && FromCaller(op.payload.movement, who)
    requires OnShelf(t, who, op.payload.movement.productId) && op.payload.movement.reversesId.Some?
    ensures var m := op.payload.movement;
      && (!IdTaken(t, m.reversesId.value) ==> Refused(t, who, op, clock, MovementNotFound, None, None))
      && (CorrectsForeign(t, who, m) ==> Refused(t, who, op, clock, OwnershipViolation, None, None))
      && (CorrectsElsewhere(t, who, m) ==> Refused(t, who, op, clock, InvalidReversal, None, None))
  {
    var id := op.payload.movement.reversesId.value;
    DecidesCorrection(t, who, op, clock.transaction);
    if IdTaken(t, id) {
      var i :| 0 <= i < |t.movements| && t.movements[i].id == id;
      FoundById(t.movements, id, i);
    } else {
      assert !MovementExists(t.movements, id);
    }
    var d := Decide(t, who, op, clock.transaction);
    if d.Reject? {
      RejectionRefuses(t, who, op, clock, d);
    }
  }

  /** A decided row and its balance, completed. */
  lemma CompletesAppend(t: Tables, who: Identity, op: Operation, clock: Clock, d: Decision, delta: int)
    requires op.payload.AddMovement? && d.WriteMovement? && op.payload.movement.productId in t.balances
    requires Process(t, who, op, clock) == Done(Complete(t, who, op.opId, d, clock), ResultOf(t, op.opId, d))
    requires RowFor(d.movement, op.payload.movement, who, delta, clock.transaction)
    ensures Appended(t, who, op, clock, delta, d.resolution)
  {
    var m := op.payload.movement;
    var balance := Complete(t, who, op.opId, d, clock).balances[m.productId];
    assert BalanceBehind(balance, t.balances[m.productId], delta, m.occurredAt, clock.transaction);
    assert Applies(t, who, op, clock,
                   t.(movements := t.movements + [d.movement], balances := t.balances[m.productId := balance]),
                   MovementEntity, m.id, Upsert, MovementPayload(ViewMovement(d.movement), d.resolution), d.resolution);
  }

  lemma DecidesAppend(t: Tables, who: Identity, op: Operation, now: Timestamp) returns (d: Decision)
    requires LedgerSound(t) && SoundMovement(op) && FromCaller(op.payload.movement, who)
    requires Fresh(t, who, op) && OnShelf(t, who, op.payload.movement.productId)
    requires CorrectsOwn(t, who, op.payload.movement) && !IdTaken(t, op.payload.movement.id)
    ensures d == Decide(t, who, op, now) && d.WriteMovement? && d.resolution == None
    ensures RowFor(d.movement, op.payload.movement, who, op.payload.movement.delta, now)
  {
    var m := op.payload.movement;
    d := Decide(t, who, op, now);
    if m.reversesId.Some? {
      var i :| 0 <= i < |t.movements| && t.movements[i].id == m.reversesId.value
        && t.movements[i].userId == who.userId && t.movements[i].productId == m.productId;
      FoundById(t.movements, m.reversesId.value, i);
    }
    assert !MovementExists(t.movements, m.id);
  }

  lemma DuplicateAborts(t: Tables, who: Identity, op: Operation, clock: Clock)
    requires LedgerSound(t) && Fresh(t, who, op) && SoundMovement(op) && FromCaller(op.payload.movement, who)
    requires OnShelf(t, who, op.payload.movement.productId) && CorrectsOwn(t, who, op.payload.movement)
    requires IdTaken(t, op.payload.movement.id)
    ensures Aborted(t, who, op, clock)
  {
    var m := op.payload.movement;
    if m.reversesId.Some? {
      var i :| 0 <= i < |t.movements| && t.movements[i].id == m.reversesId.value
        && t.movements[i].userId == who.userId && t.movements[i].productId == m.productId;
      FoundById(t.movements, m.reversesId.value, i);
    }
    assert MovementExists(t.movements, m.id);
  }

  lemma MovementAppended(t: Tables, who: Identity, op: Operation, clock: Clock)
    requires LedgerSound(t) && ProjectionExact(t)
    requires Fresh(t, who, op) && SoundMovement(op) && FromCaller(op.payload.movement, who)
    requires OnShelf(t, who, op.payload.movement.productId) && CorrectsOwn(t, who, op.payload.movement)
    requires !IdTaken(t, op.payload.movement.id)
    ensures Appended(t, who, op, clock, op.payload.movement.delta, None)
  {
    var d := DecidesAppend(t, who, op, clock.transaction);
    ProcessCompletes(t, who, op, clock, d);
    CompletesAppend(t, who, op, clock, d, op.payload.movement.delta);
  }

  /** Receipts, issues and adjustments: the outcome, case by case. The delta is
      the client's, sign and all. */
  lemma MovementOutcome(t: Tables, who: Identity, op: Operation, clock: Clock)
    requires Valid(t) && Fresh(t, who, op) && op.payload.AddMovement? && op.payload.movement.kind != Stocktake
    ensures var m := op.payload.movement;
      if !SoundMovement(op) then Refused(t, who, op, clock, InvalidOperation, None, None)
      else if !FromCaller(m, who) then Refused(t, who, op, clock, DeviceMismatch, None, None)
      else if !OnShelf(t, who, m.productId) then
        Refused(t, who, op, clock, WhyNotOnShelf(t, who, m.productId), None, None)
      else if m.reversesId.Some? && !IdTaken(t, m.reversesId.value) then
        Refused(t, who, op, clock, MovementNotFound, None, None)
      else if CorrectsForeign(t, who, m) then Refused(t, who, op, clock, OwnershipViolation, None, None)
      else if CorrectsElsewhere(t, who, m) then Refused(t, who, op, clock, InvalidReversal, None, None)
      else if IdTaken(t, m.id) then Aborted(t, who, op, clock)
      else Appended(t, who, op, clock, m.delta, None)
  {
    var m := op.payload.movement;
    MovementAddressed(t, who, op, clock);
    if SoundMovement(op) && FromCaller(m, who) && OnShelf(t, who, m.productId) {
      if m.reversesId.Some? {
        MovementCorrects(t, who, op, clock);
      }
      if CorrectsOwn(t, who, m) {
        if IdTaken(t, m.id) {
          DuplicateAborts(t, who, op, clock);
        } else {
          MovementAppended(t, who, op, clock);
        }
      }
    }
  }

  /** An ordinary movement that nothing stands in the way of. */
  predicate Acceptable(t: Tables, who: Identity, op: Operation) {
    && Fresh(t, who, op) && SoundMovement(op)
    && var m := op.payload.movement;
       FromCaller(m, who) && OnShelf(t, who, m.productId) && CorrectsOwn(t, who, m) && !IdTaken(t, m.id)
  }

  /** The answer to it, and the two rows that it changes. */
  predicate Accepted(t: Tables, next: Tables, who: Identity, op: Operation, clock: Clock, result: OperationResult)
    requires op.payload.AddMovement?
  {
    var m := op.payload.movement;
    && result == OperationResult(op.opId, Status.Applied, Some(t.lastSeq + 1), None, None, None)
    && |next.movements| == |t.movements| + 1 && next.movements[..|t.movements|] == t.movements
    && RowFor(next.movements[|t.movements|], m, who, m.delta, clock.transaction)
    && m.productId in t.balances && m.productId in next.balances
    && next.balances[m.productId].qty == t.balances[m.productId].qty + m.delta
  }

  lemma AcceptableIsApplied(t: Tables, who: Identity, op: Operation, clock: Clock)
    requires Valid(t) && Acceptable(t, who, op)
    ensures var answer := Process(t, who, op, clock);
      answer.Done? && Accepted(t, answer.tables, who, op, clock, answer.result)
  {
    MovementAppended(t, who, op, clock);
  }

  /** It stays acceptable until its key or its id is used or its product is
      deleted, whatever else commits. */
  predicate Leaves(d: Delivery, who: Identity, op: Operation)
    requires op.payload.AddMovement?
  {
    && d.Key() != OperationKey(who.deviceId, op.opId)
    && (d.op.payload.AddMovement? ==> d.op.payload.movement.id != op.payload.movement.id)
    && (d.op.payload.DeleteProduct? ==> d.op.payload.id != op.payload.movement.productId)
  }

  /** What is written is what the payload names. */
  lemma WritesNamed(t: Tables, who: Identity, op: Operation, now: Timestamp)
    requires Keyed(t)
    ensures match Decide(t, who, op, now)
      case WriteMovement(m, _) => op.payload.AddMovement? && m.id == op.payload.movement.id
      case WriteProduct(p, _) =>
        || (op.payload.UpsertProduct? && p.id == op.payload.id && p.deletedAt == None)
        || (op.payload.DeleteProduct? && p.id == op.payload.id)
      case _ => true
  {
  }

  lemma AcceptableBesideMovement(t: Tables, next: Tables, who: Identity, op: Operation, row: StockMovement)
    requires Acceptable(t, who, op) && row.id != op.payload.movement.id
    requires next.movements == t.movements + [row] && next.products == t.products && next.devices == t.devices
    requires OperationKey(who.deviceId, op.opId) !in next.syncOps
    ensures Acceptable(next, who, op)
  {
    var m := op.payload.movement;
    if m.reversesId.Some? {
      var k :| 0 <= k < |t.movements| && t.movements[k].id == m.reversesId.value
        && t.movements[k].userId == who.userId && t.movements[k].productId == m.productId;
      assert next.movements[k] == t.movements[k];
    }
  }

  lemma AcceptableStep(t: Tables, d: Delivery, who: Identity, op: Operation)
    requires Keyed(t) && Acceptable(t, who, op) && Leaves(d, who, op)
    ensures Acceptable(Deliver(t, d), who, op)
  {
    var decision := DeliverCases(t, d);
    var next := Deliver(t, d);
    WritesNamed(t, d.who, d.op, d.clock.transaction);
    if decision.WriteMovement? {
      AcceptableBesideMovement(t, next, who, op, decision.movement);
    } else if !decision.Abandon? {
      assert next.movements == t.movements && next.devices == t.devices;
      assert next.products ==
        if decision.WriteProduct? then t.products[decision.product.id := decision.product] else t.products;
      assert OperationKey(who.deviceId, op.opId) !in next.syncOps;
    }
  }

  lemma {:induction false} AcceptableLater(t: Tables, ds: seq<Delivery>, who: Identity, op: Operation)
    requires Valid(t) && Acceptable(t, who, op) && forall i | 0 <= i < |ds| :: Leaves(ds[i], who, op)
    ensures Acceptable(Run(t, ds), who, op)
  {
    if ds != [] {
      var front := ds[..|ds| - 1];
      AcceptableLater(t, front, who, op);
      RunValid(t, front);
      AcceptableStep(Run(t, front), ds[|ds| - 1], who, op);
    }
  }

  // ----- Stocktakes -----

  predicate StocktakeRow(row: StockMovement, userId: Uuid, productId: Uuid) {
    row.userId == userId && row.productId == productId && row.kind == Stocktake
  }

  /** The product's stocktake of latest time, and of greatest id at that time;
      none if it has none. */
  predicate Canonical(t: Tables, userId: Uuid, productId: Uuid, row: Option<StockMovement>) {
    if row.None? then forall s | s in t.movements :: !StocktakeRow(s, userId, productId)
    else
      && row.value in t.movements && StocktakeRow(row.value, userId, productId)
      && forall s | s in t.movements && StocktakeRow(s, userId, productId) ::
           s.occurredAt < row.value.occurredAt || (s.occurredAt == row.value.occurredAt && s.id <= row.value.id)
  }

  /** There is exactly one. */
  lemma CanonicalIsLatest(t: Tables, userId: Uuid, productId: Uuid, row: Option<StockMovement>)
    requires LedgerSound(t)
    ensures Canonical(t, userId, productId, row) <==> row == LatestStocktake(t.movements, userId, productId)
  {
    var latest := LatestStocktake(t.movements, userId, productId);
    forall s | s in t.movements ensures StocktakeRow(s, userId, productId) == StocktakeOf(s, userId, productId) {
    }
    if latest.Some? && row.Some? && Canonical(t, userId, productId, row) {
      var i :| 0 <= i < |t.movements| && t.movements[i] == row.value;
      var j :| 0 <= j < |t.movements| && t.movements[j] == latest.value;
      assert row.value.id == latest.value.id;
    }
  }

  /** What a resolution says of a ledger row. */
  predicate Names(intent: StocktakeIntent, row: StockMovement) {
    && intent.movementId == row.id && intent.productId == row.productId && intent.delta == row.delta
    && row.countedQty == Some(intent.countedQty)
    && intent.occurredAt == row.occurredAt && intent.deviceId == row.deviceId
  }

  /** What it says of a request, with the delta given. */
  predicate NamesRequest(intent: StocktakeIntent, m: MovementRequest, who: Identity, delta: int) {
    && intent.movementId == m.id && intent.productId == m.productId && intent.delta == delta
    && m.countedQty == Some(intent.countedQty)
    && intent.occurredAt == m.occurredAt && intent.deviceId == who.deviceId
  }

  /** The new stocktake's time and id exceed the canonical one's. */
  predicate Supersedes(m: MovementRequest, row: Option<StockMovement>) {
    row.None? || row.value.occurredAt < m.occurredAt || (row.value.occurredAt == m.occurredAt && row.value.id < m.id)
  }

  /** The canonical stocktake stays, the new one is the incoming one, and the
      balance is what it was. */
  predicate Keeps(r: StocktakeResolution, m: MovementRequest, who: Identity, row: StockMovement, qty: int) {
    && r.productId == m.productId && r.canonicalBalance == qty && r.displaced == []
    && Names(r.canonical, row) && NamesRequest(r.incoming, m, who, m.delta)
  }

  /** The new stocktake is the canonical one, displaces the former, and the
      balance is its count. */
  predicate Replaces(r: StocktakeResolution, m: MovementRequest, who: Identity, row: Option<StockMovement>, qty: int)
    requires m.countedQty.Some?
  {
    var counted := m.countedQty.value;
    && r.productId == m.productId && r.canonicalBalance == counted
    && NamesRequest(r.canonical, m, who, counted - qty) && NamesRequest(r.incoming, m, who, counted - qty)
    && if row.None? then r.displaced == [] else |r.displaced| == 1 && Names(r.displaced[0], row.value)
  }

  lemma StocktakeAddressed(t: Tables, who: Identity, op: Operation, clock: Clock)
    requires Fresh(t, who, op) && op.payload.AddMovement? && op.payload.movement.kind == Stocktake
    ensures var m := op.payload.movement;
      var sent := SoundStocktake(op) && FromCaller(m, who);
      && (!SoundStocktake(op) ==> Refused(t, who, op, clock, InvalidOperation, None, None))
      && (SoundStocktake(op) && !FromCaller(m, who) ==> Refused(t, who, op, clock, DeviceMismatch, None, None))
      && (sent && !OnShelf(t, who, m.productId) ==>
            Refused(t, who, op, clock, WhyNotOnShelf(t, who, m.productId), None, None))
  {
  }

  lemma DecidesDisplaced(t: Tables, who: Identity, op: Operation, now: Timestamp, row: StockMovement)
    returns (r: StocktakeResolution)
    requires LedgerSound(t) && ProjectionExact(t)
    requires Fresh(t, who, op) && SoundStocktake(op) && FromCaller(op.payload.movement, who)
    requires OnShelf(t, who, op.payload.movement.productId)
    requires LatestStocktake(t.movements, who.userId, op.payload.movement.productId) == Some(row)
    requires !Supersedes(op.payload.movement, Some(row))
    ensures Decide(t, who, op, now) == Reject(StocktakeDisplaced, None, Some(r))
    ensures Keeps(r, op.payload.movement, who, row, t.balances[op.payload.movement.productId].qty)
  {
    var i :| 0 <= i < |t.movements| && t.movements[i] == row;
    assert RowSound(t, i);
    r := Decide(t, who, op, now).stocktake.value;
  }

  lemma DecidesUnwritten(t: Tables, who: Identity, op: Operation, now: Timestamp)
    requires ProjectionExact(t)
    requires Fresh(t, who, op) && SoundStocktake(op) && FromCaller(op.payload.movement, who)
    requires OnShelf(t, who, op.payload.movement.productId)
    requires Supersedes(op.payload.movement,
                        LatestStocktake(t.movements, who.userId, op.payload.movement.productId))
    ensures var m := op.payload.movement; var gap := m.countedQty.value - t.balances[m.productId].qty;
      && (gap == 0 || !(-0x8000_0000 <= gap < 0x8000_0000) ==>
            Decide(t, who, op, now) == Reject(InvalidDelta, None, None))
      && (gap != 0 && -0x8000_0000 <= gap < 0x8000_0000 && IdTaken(t, m.id) ==> Decide(t, who, op, now).Abandon?)
  {
    assert IdTaken(t, op.payload.movement.id) == MovementExists(t.movements, op.payload.movement.id);
  }

  lemma StocktakeRefused(t: Tables, who: Identity, op: Operation, clock: Clock, row: Option<StockMovement>)
    requires LedgerSound(t) && ProjectionExact(t)
    requires Fresh(t, who, op) && SoundStocktake(op) && FromCaller(op.payload.movement, who)
    requires OnShelf(t, who, op.payload.movement.productId)
    requires Canonical(t, who.userId, op.payload.movement.productId, row)
    ensures var m := op.payload.movement; var qty := t.balances[m.productId].qty;
      var gap := m.countedQty.value - qty;
      && (!Supersedes(m, row) ==>
            exists r ::
              Keeps(r, m, who, row.value, qty) && Refused(t, who, op, clock, StocktakeDisplaced, None, Some(r)))
      && (Supersedes(m, row) && (gap == 0 || !(-0x8000_0000 <= gap < 0x8000_0000)) ==>
            Refused(t, who, op, clock, InvalidDelta, None, None))
      && (Supersedes(m, row) && gap != 0 && -0x8000_0000 <= gap < 0x8000_0000 && IdTaken(t, m.id) ==>
            Aborted(t, who, op, clock))
  {
    var m := op.payload.movement;
    var d := Decide(t, who, op, clock.transaction);
    CanonicalIsLatest(t, who.userId, m.productId, row);
    if Supersedes(m, row) {
      DecidesUnwritten(t, who, op, clock.transaction);
    } else {
      var r := DecidesDisplaced(t, who, op, clock.transaction, row.value);
    }
    if d.Reject? {
      RejectionRefuses(t, who, op, clock, d);
    }
  }

  /** The row and the resolution as the policy computes them. */
  lemma ComputesStocktake(t: Tables, who: Identity, op: Operation, now: Timestamp, row: Option<StockMovement>)
    returns (d: Decision, input: M.AppendInput)
    requires ProjectionExact(t)
    requires Fresh(t, who, op) && SoundStocktake(op) && FromCaller(op.payload.movement, who)
    requires OnShelf(t, who, op.payload.movement.productId) && !IdTaken(t, op.payload.movement.id)
    requires row == LatestStocktake(t.movements, who.userId, op.payload.movement.productId)
    requires Supersedes(op.payload.movement, row)
    requires var gap := op.payload.movement.countedQty.value - t.balances[op.payload.movement.productId].qty;
      gap != 0 && -0x8000_0000 <= gap < 0x8000_0000
    ensures var m := op.payload.movement; var qty := t.balances[m.productId].qty;
      && M.NormalizeAppend(AppendInputOf(m, who)) == Ok(input) && d == Decide(t, who, op, now)
      && d == WriteMovement(M.RowOf(input, m.countedQty.value - qty, now),
                            Some(M.AcceptedStocktake(input, m.countedQty.value - qty, qty, row, now)))
  {
    d := Decide(t, who, op, now);
    input := M.NormalizeAppend(AppendInputOf(op.payload.movement, who)).value;
    assert !MovementExists(t.movements, op.payload.movement.id);
  }

  lemma DecidesStocktake(t: Tables, who: Identity, op: Operation, now: Timestamp, row: Option<StockMovement>)
    returns (d: Decision)
    requires LedgerSound(t) && ProjectionExact(t)
    requires Fresh(t, who, op) && SoundStocktake(op) && FromCaller(op.payload.movement, who)
    requires OnShelf(t, who, op.payload.movement.productId) && !IdTaken(t, op.payload.movement.id)
    requires row == LatestStocktake(t.movements, who.userId, op.payload.movement.productId)
    requires Supersedes(op.payload.movement, row)
    requires var gap := op.payload.movement.countedQty.value - t.balances[op.payload.movement.productId].qty;
      gap != 0 && -0x8000_0000 <= gap < 0x8000_0000
    ensures var m := op.payload.movement; var qty := t.balances[m.productId].qty;
      && d == Decide(t, who, op, now) && d.WriteMovement? && d.resolution.Some?
      && RowFor(d.movement, m, who, m.countedQty.value - qty, now) && Replaces(d.resolution.value, m, who, row, qty)
  {
    var input;
    d, input := ComputesStocktake(t, who, op, now, row);
    if row.Some? {
      var i :| 0 <= i < |t.movements| && t.movements[i] == row.value;
      assert RowSound(t, i);
    }
  }

  lemma StocktakeAppended(t: Tables, who: Identity, op: Operation, clock: Clock, row: Option<StockMovement>)
    requires LedgerSound(t) && ProjectionExact(t)
    requires Fresh(t, who, op) && SoundStocktake(op) && FromCaller(op.payload.movement, who)
    requires OnShelf(t, who, op.payload.movement.productId) && !IdTaken(t, op.payload.movement.id)
    requires Canonical(t, who.userId, op.payload.movement.productId, row) && Supersedes(op.payload.movement, row)
    requires var gap := op.payload.movement.countedQty.value - t.balances[op.payload.movement.productId].qty;
      gap != 0 && -0x8000_0000 <= gap < 0x8000_0000
    ensures var m := op.payload.movement; var qty := t.balances[m.productId].qty;
      exists r :: Replaces(r, m, who, row, qty) && Appended(t, who, op, clock, m.countedQty.value - qty, Some(r))
  {
    var m := op.payload.movement;
    CanonicalIsLatest(t, who.userId, m.productId, row);
    var d := DecidesStocktake(t, who, op, clock.transaction, row);
    ProcessCompletes(t, who, op, clock, d);
    CompletesAppend(t, who, op, clock, d, m.countedQty.value - t.balances[m.productId].qty);
    assert d.resolution == Some(d.resolution.value);
  }

  /** Stocktakes: the outcome, case by case. The client's own delta matters
      only as the incoming side of a displaced one. */
  lemma StocktakeOutcome(t: Tables, who: Identity, op: Operation, clock: Clock, row: Option<StockMovement>)
    requires Valid(t) && Fresh(t, who, op) && op.payload.AddMovement? && op.payload.movement.kind == Stocktake
    requires Canonical(t, who.userId, op.payload.movement.productId, row)
    ensures var m := op.payload.movement;
      if !SoundStocktake(op) then Refused(t, who, op, clock, InvalidOperation, None, None)
      else if !FromCaller(m, who) then Refused(t, who, op, clock, DeviceMismatch, None, None)
      else if !OnShelf(t, who, m.productId) then
        Refused(t, who, op, clock, WhyNotOnShelf(t, who, m.productId), None, None)
      else
        var qty := t.balances[m.productId].qty;
        var gap := m.countedQty.value - qty;
        if !Supersedes(m, row) then
          exists r :: Keeps(r, m, who, row.value, qty) && Refused(t, who, op, clock, StocktakeDisplaced, None, Some(r))
        else if gap == 0 || !(-0x8000_0000 <= gap < 0x8000_0000) then
          Refused(t, who, op, clock, InvalidDelta, None, None)
        else if IdTaken(t, m.id) then Aborted(t, who, op, clock)
        else exists r :: Replaces(r, m, who, row, qty) && Appended(t, who, op, clock, gap, Some(r))
  {
    var m := op.payload.movement;
    StocktakeAddressed(t, who, op, clock);
    if SoundStocktake(op) && FromCaller(m, who) && OnShelf(t, who, m.productId) {
      StocktakeRefused(t, who, op, clock, row);
      var gap := m.countedQty.value - t.balances[m.productId].qty;
      if Supersedes(m, row) && gap != 0 && -0x8000_0000 <= gap < 0x8000_0000 && !IdTaken(t, m.id) {
        StocktakeAppended(t, who, op, clock, row);
      }
    }
  }

  // ----- Products -----

  predicate SameText(stored: Option<string>, sent: Option<string>) {
    stored == if sent == Some("") then None else sent
  }

  /** The columns that a payload becomes: blank texts are absent, and pieces
      are the default unit. */
  predicate FieldsFor(stored: Fields, sent: Fields) {
    && stored.name == sent.name && stored.unit == (if sent.unit == "" then "pcs" else sent.unit)
    && stored.minStock == sent.minStock
    && SameText(stored.barcode, sent.barcode) && SameText(stored.sku, sent.sku)
    && SameText(stored.description, sent.description) && SameText(stored.category, sent.category)
  }

  predicate CreatedRow(row: Product, id: Uuid, sent: Fields, who: Identity, now: Timestamp) {
    && row.id == id && row.userId == who.userId && FieldsFor(row.fields, sent) && row.version == 1
    && row.createdAt == now && row.updatedAt == now && row.updatedBy == who.deviceId && row.deletedAt == None
  }

  predicate EditedRow(row: Product, was: Product, sent: Fields, who: Identity, now: Timestamp) {
    && row.id == was.id && row.userId == was.userId && FieldsFor(row.fields, sent) && row.version == was.version + 1
    && row.createdAt == was.createdAt && row.updatedAt == now && row.updatedBy == who.deviceId && row.deletedAt == None
  }

  predicate DeletedRow(row: Product, was: Product, who: Identity, now: Timestamp) {
    && row.id == was.id && row.userId == was.userId && row.fields == was.fields && row.version == was.version + 1
    && row.createdAt == was.createdAt && row.updatedAt == now && row.updatedBy == who.deviceId
    && row.deletedAt == Some(now)
  }

  /** The active product, of any account, that already has the barcode. */
  predicate HoldsBarcode(t: Tables, id: Uuid, sent: Option<string>, owner: Uuid) {
    && sent.Some? && sent.value != ""
    && owner != id && owner in t.products && t.products[owner].deletedAt == None
    && t.products[owner].fields.barcode == sent
  }

  /** Its row is shown to its own account only. */
  function BarcodeExplanation(t: Tables, who: Identity, owner: Uuid): Option<ProductView>
    requires owner in t.products
  {
    if t.products[owner].userId == who.userId then Some(ViewProduct(t.products[owner])) else None
  }

  ghost predicate RefusedForBarcode(t: Tables, who: Identity, op: Operation, clock: Clock, id: Uuid,
                                    sent: Option<string>)
  {
    forall owner | HoldsBarcode(t, id, sent, owner) ::
      Refused(t, who, op, clock, BarcodeConflict, BarcodeExplanation(t, who, owner), None)
  }

  predicate BarcodeHeld(t: Tables, id: Uuid, sent: Option<string>) {
    exists owner | owner in t.products :: HoldsBarcode(t, id, sent, owner)
  }

  ghost predicate Created(t: Tables, who: Identity, op: Operation, clock: Clock, id: Uuid, sent: Fields) {
    exists row: Product ::
      && CreatedRow(row, id, sent, who, clock.transaction)
      && Applies(t, who, op, clock,
                 t.(products := t.products[id := row],
                    balances := t.balances[id := ProductBalance(0, None, clock.transaction)]),
                 ProductEntity, id, Upsert, ProductPayload(ViewProduct(row)), None)
  }

  ghost predicate Edited(t: Tables, who: Identity, op: Operation, clock: Clock, id: Uuid, sent: Fields)
    requires id in t.products
  {
    exists row: Product ::
      && EditedRow(row, t.products[id], sent, who, clock.transaction)
      && Applies(t, who, op, clock, t.(products := t.products[id := row]),
                 ProductEntity, id, Upsert, ProductPayload(ViewProduct(row)), None)
  }

  ghost predicate Deleted(t: Tables, who: Identity, op: Operation, clock: Clock, id: Uuid)
    requires id in t.products
  {
    exists row: Product ::
      && DeletedRow(row, t.products[id], who, clock.transaction)
      && Applies(t, who, op, clock, t.(products := t.products[id := row]),
                 ProductEntity, id, ChangeOp.Delete, ProductPayload(ViewProduct(row)), None)
  }

  /** Every holder of the barcode is the same one, and it is the one shown. */
  lemma OneHolder(t: Tables, userId: Uuid, id: Uuid, sent: Option<string>, owner: Uuid)
    requires BarcodesUnique(t) && HoldsBarcode(t, id, sent, owner)
    ensures BarcodeTaken(t.products, id, sent)
    ensures t.products[owner].userId == userId ==>
      ActiveProductByBarcode(t.products, userId, sent.value) == Some(t.products[owner])
    ensures t.products[owner].userId != userId ==> ActiveProductByBarcode(t.products, userId, sent.value) == None
  {
    var owners := ActiveOwners(t.products, userId, sent.value);
    forall other | other in owners ensures other == owner {
      assert t.products[other].fields.barcode == t.products[owner].fields.barcode;
    }
    if t.products[owner].userId == userId {
      assert owner in owners;
    }
  }

  lemma UpsertAddressed(t: Tables, who: Identity, op: Operation, clock: Clock)
    requires Keyed(t) && Fresh(t, who, op) && op.payload.UpsertProduct?
    ensures var id := op.payload.id;
      && (!SoundUpsert(op) ==> Refused(t, who, op, clock, InvalidOperation, None, None))
      && (SoundUpsert(op) && id !in t.products && op.baseVersion !in {None, Some(0)} ==>
            Refused(t, who, op, clock, InvalidBaseVersion, None, None))
      && (SoundUpsert(op) && id in t.products && t.products[id].userId != who.userId ==>
            Refused(t, who, op, clock, OwnershipViolation, None, None))
      && (SoundUpsert(op) && id in t.products && t.products[id].userId == who.userId &&
          t.products[id].deletedAt.Some? ==>
            Refused(t, who, op, clock, ProductDeleted, Some(ViewProduct(t.products[id])), None))
      && (SoundUpsert(op) && OnShelf(t, who, id) && op.baseVersion in {None, Some(0)} ==>
            Refused(t, who, op, clock, InvalidBaseVersion, None, None))
  {
  }

  /** An edit of any version but the current one changes nothing, and shows the
      row that it missed. */
  lemma StaleEditRefused(t: Tables, who: Identity, op: Operation, clock: Clock)
    requires Keyed(t) && Fresh(t, who, op) && SoundUpsert(op) && OnShelf(t, who, op.payload.id)
    requires op.baseVersion !in {None, Some(0)} && op.baseVersion != Some(t.products[op.payload.id].version)
    ensures Refused(t, who, op, clock, VersionConflict, Some(ViewProduct(t.products[op.payload.id])), None)
  {
  }

  lemma CreateOrConflict(t: Tables, who: Identity, op: Operation, clock: Clock)
    requires Keyed(t) && BarcodesUnique(t) && Fresh(t, who, op) && SoundUpsert(op)
    requires op.payload.id !in t.products && op.baseVersion in {None, Some(0)}
    ensures var id, sent := op.payload.id, op.payload.fields;
      if BarcodeHeld(t, id, sent.barcode) then RefusedForBarcode(t, who, op, clock, id, sent.barcode)
      else Created(t, who, op, clock, id, sent)
  {
    var id, sent := op.payload.id, op.payload.fields;
    if BarcodeHeld(t, id, sent.barcode) {
      forall owner | HoldsBarcode(t, id, sent.barcode, owner)
        ensures Refused(t, who, op, clock, BarcodeConflict, BarcodeExplanation(t, who, owner), None)
      {
        OneHolder(t, who.userId, id, sent.barcode, owner);
      }
    } else {
      FreeBarcode(t, id, sent.barcode);
      var row := Decide(t, who, op, clock.transaction).product;
      assert CreatedRow(row, id, sent, who, clock.transaction);
    }
  }

  lemma FreeBarcode(t: Tables, id: Uuid, sent: Option<string>)
    requires !BarcodeHeld(t, id, sent)
    ensures !BarcodeTaken(t.products, id, NormalizeOptional(sent))
  {
    assert forall q | q in t.products :: !HoldsBarcode(t, id, sent, q);
  }

  lemma EditOrConflict(t: Tables, who: Identity, op: Operation, clock: Clock)
    requires Keyed(t) && BarcodesUnique(t) && Fresh(t, who, op) && SoundUpsert(op)
    requires OnShelf(t, who, op.payload.id) && op.baseVersion == Some(t.products[op.payload.id].version)
    ensures var id, sent := op.payload.id, op.payload.fields;
      if BarcodeHeld(t, id, sent.barcode) then RefusedForBarcode(t, who, op, clock, id, sent.barcode)
      else Edited(t, who, op, clock, id, sent)
  {
    var id, sent := op.payload.id, op.payload.fields;
    if BarcodeHeld(t, id, sent.barcode) {
      forall owner | HoldsBarcode(t, id, sent.barcode, owner)
        ensures Refused(t, who, op, clock, BarcodeConflict, BarcodeExplanation(t, who, owner), None)
      {
        OneHolder(t, who.userId, id, sent.barcode, owner);
      }
    } else {
      FreeBarcode(t, id, sent.barcode);
      var row := Decide(t, who, op, clock.transaction).product;
      assert EditedRow(row, t.products[id], sent, who, clock.transaction);
    }
  }

  /** Creates and edits: the outcome, case by case. */
  lemma UpsertOutcome(t: Tables, who: Identity, op: Operation, clock: Clock)
    requires Valid(t) && Fresh(t, who, op) && op.payload.UpsertProduct?
    ensures var id, sent := op.payload.id, op.payload.fields;
      if !SoundUpsert(op) then Refused(t, who, op, clock, InvalidOperation, None, None)
      else if id !in t.products then
        if op.baseVersion !in {None, Some(0)} then Refused(t, who, op, clock, InvalidBaseVersion, None, None)
        else if BarcodeHeld(t, id, sent.barcode) then RefusedForBarcode(t, who, op, clock, id, sent.barcode)
        else Created(t, who, op, clock, id, sent)
      else if t.products[id].userId != who.userId then Refused(t, who, op, clock, OwnershipViolation, None, None)
      else if t.products[id].deletedAt.Some? then
        Refused(t, who, op, clock, ProductDeleted, Some(ViewProduct(t.products[id])), None)
      else if op.baseVersion in {None, Some(0)} then Refused(t, who, op, clock, InvalidBaseVersion, None, None)
      else if op.baseVersion != Some(t.products[id].version) then
        Refused(t, who, op, clock, VersionConflict, Some(ViewProduct(t.products[id])), None)
      else if BarcodeHeld(t, id, sent.barcode) then RefusedForBarcode(t, who, op, clock, id, sent.barcode)
      else Edited(t, who, op, clock, id, sent)
  {
    UpsertAddressed(t, who, op, clock);
    var id := op.payload.id;
    if SoundUpsert(op) && id !in t.products && op.baseVersion in {None, Some(0)} {
      CreateOrConflict(t, who, op, clock);
    } else if SoundUpsert(op) && OnShelf(t, who, id) && op.baseVersion !in {None, Some(0)} {
      if op.baseVersion == Some(t.products[id].version) {
        EditOrConflict(t, who, op, clock);
      } else {
        StaleEditRefused(t, who, op, clock);
      }
    }
  }

  /** Deletes: the outcome, case by case. A delete of a version that the
      product already has, or had, is applied. */
  lemma DeleteOutcome(t: Tables, who: Identity, op: Operation, clock: Clock)
    requires Valid(t) && Fresh(t, who, op) && op.payload.DeleteProduct?
    ensures var id := op.payload.id;
      if !SoundDelete(op) then Refused(t, who, op, clock, InvalidOperation, None, None)
      else if id !in t.products then Refused(t, who, op, clock, ProductNotFound, None, None)
      else if t.products[id].userId != who.userId then Refused(t, who, op, clock, OwnershipViolation, None, None)
      else if t.products[id].deletedAt.Some? then
        Refused(t, who, op, clock, ProductDeleted, Some(ViewProduct(t.products[id])), None)
      else if op.baseVersion.value > t.products[id].version then
        Refused(t, who, op, clock, VersionConflict, Some(ViewProduct(t.products[id])), None)
      else Deleted(t, who, op, clock, id)
  {
    if SoundDelete(op) && OnShelf(t, who, op.payload.id)
      && op.baseVersion.value <= t.products[op.payload.id].version {
      var row := Decide(t, who, op, clock.transaction).product;
      assert DeletedRow(row, t.products[op.payload.id], who, clock.transaction);
    }
  }

  /** A payload that could not be decoded. */
  lemma UndecodableOutcome(t: Tables, who: Identity, op: Operation, clock: Clock)
    requires Fresh(t, who, op) && op.payload.Undecodable?
    ensures Refused(t, who, op, clock, InvalidOperation, None, None)
  {
  }
}
