/** What holds of the tables in every state that synchronization reaches, and
    the proof that one completed operation keeps it. */
module Invariants {
  import opened Prelude
  import opened Schema
  import opened Ledger
  import opened SyncPolicy
  import M = MovementPolicy
  import P = ProductPolicy

  // ----- What a decision may write -----

  ghost predicate AdmissibleProduct(t: Tables, who: Identity, p: Product, op: ChangeOp) {
    && p.userId == who.userId && CompleteFields(p.fields)
    && (op.Delete? <==> !p.Active())
    && (p.Active() ==> !BarcodeTaken(t.products, p.id, p.fields.barcode))
    && if p.id in t.products then
         var was := t.products[p.id];
         && was.Active() && was.userId == who.userId
         && p.version == was.version + 1 && p.createdAt == was.createdAt
         && (op.Delete? ==> p.fields == was.fields)
       else p.version == 1 && p.Active()
  }

  ghost predicate AdmissibleMovement(t: Tables, who: Identity, m: StockMovement,
                                     resolution: Option<StocktakeResolution>)
  {
    && m.userId == who.userId && m.deviceId == who.deviceId
    && M.ActiveAndOwned(t.products, who.userId, m.productId)
    && !MovementExists(t.movements, m.id)
    && SoundMovementView(ViewMovement(m))
    && (m.reversesId.Some? ==>
          exists i | 0 <= i < |t.movements| ::
            t.movements[i].id == m.reversesId.value && Concerns(t.movements[i], m.userId, m.productId))
    && (m.kind.Stocktake? <==> resolution.Some?)
    && (m.kind.Stocktake? <==> m.countedQty.Some?)
    && (m.countedQty.Some? ==> m.countedQty.value >= 0)
    && (m.kind.Stocktake? ==>
          var latest := LatestStocktake(t.movements, m.userId, m.productId);
          && m.countedQty.value == LedgerQty(t.movements, m.userId, m.productId) + m.delta
          && (latest.Some? ==> KeyBefore(latest.value.occurredAt, latest.value.id, m.occurredAt, m.id)))
  }

  ghost predicate Admissible(t: Tables, who: Identity, d: Decision) {
    match d
    case WriteProduct(p, op) => AdmissibleProduct(t, who, p, op)
    case WriteMovement(m, resolution) => AdmissibleMovement(t, who, m, resolution)
    case Reject(reason, _, _) => !reason.MovementConflict? && !reason.ProductConflict?
    case Abandon => true
  }

  lemma DecideMovementAdmissible(t: Tables, who: Identity, request: MovementRequest, now: Timestamp)
    requires ValidMovementRequest(request)
    ensures Admissible(t, who, DecideMovement(t, who, request, now))
  {
  }

  lemma DecideProductAdmissible(t: Tables, who: Identity, baseVersion: Option<int>, id: Uuid, fields: Fields,
                                now: Timestamp)
    requires Keyed(t)
    ensures Admissible(t, who, DecideUpsert(t, who, baseVersion, id, fields, now))
    ensures Admissible(t, who, DecideTombstone(t, who, baseVersion, id, now))
  {
  }

  /** Every decision of the engine is admissible. */
  lemma DecideAdmissible(t: Tables, who: Identity, op: Operation, now: Timestamp)
    requires Keyed(t)
    ensures Admissible(t, who, Decide(t, who, op, now))
  {
    if ValidOperation(op) {
      match op.payload
      case AddMovement(m) => DecideMovementAdmissible(t, who, m, now);
      case UpsertProduct(id, fields) => DecideProductAdmissible(t, who, op.baseVersion, id, fields, now);
      case DeleteProduct(id, _) =>
        DecideProductAdmissible(t, who, op.baseVersion, id, Fields(None, None, "", None, "", None, None), now);
      case Undecodable =>
    }
  }

  // ----- The invariant, part by part -----

  ghost predicate Keyed(t: Tables) {
    Indexed(t) && forall id | id in t.products :: t.products[id].version >= 1 && CompleteFields(t.products[id].fields)
  }

  /** Every ledger row belongs to a product of its account; ids are unique;
      corrections point at an earlier row of the same product. */
  ghost predicate LedgerSound(t: Tables) {
    && (forall i | 0 <= i < |t.movements| :: RowSound(t, i))
    && (forall i, j | 0 <= i < j < |t.movements| :: t.movements[i].id != t.movements[j].id)
  }

  ghost predicate RowSound(t: Tables, i: nat)
    requires i < |t.movements|
  {
    var m := t.movements[i];
    && m.delta != 0
    && m.productId in t.products && t.products[m.productId].userId == m.userId
    && (m.kind.Stocktake? <==> m.countedQty.Some?)
    && (m.countedQty.Some? ==> m.countedQty.value >= 0)
    && (m.reversesId.Some? ==>
          exists j | 0 <= j < i ::
            t.movements[j].id == m.reversesId.value && Concerns(t.movements[j], m.userId, m.productId))
  }

  /** The stored projection is the fold of the ledger, for every product. */
  ghost predicate ProjectionExact(t: Tables) {
    && t.balances.Keys == t.products.Keys
    && forall id | id in t.products ::
         && t.balances[id].qty == LedgerQty(t.movements, t.products[id].userId, id)
         && t.balances[id].lastMovementAt == LedgerLast(t.movements, t.products[id].userId, id)
  }

  /** No two active products, of any account, share a barcode. */
  ghost predicate BarcodesUnique(t: Tables) {
    forall a, b | a in t.products && b in t.products && a != b ::
      t.products[a].Active() && t.products[b].Active() && t.products[a].fields.barcode.Some? ==>
        t.products[a].fields.barcode != t.products[b].fields.barcode
  }

  /** Stocktakes of a product were appended in strictly increasing key order,
      and each brought the balance to its counted quantity. */
  ghost predicate StocktakesAnchored(t: Tables) {
    && (forall i, j | 0 <= i < j < |t.movements| :: OrderedStocktakes(t.movements[i], t.movements[j]))
    && (forall i | 0 <= i < |t.movements| && t.movements[i].kind.Stocktake? && t.movements[i].countedQty.Some? ::
          t.movements[i].countedQty.value ==
          LedgerQty(t.movements[..i + 1], t.movements[i].userId, t.movements[i].productId))
  }

  predicate OrderedStocktakes(a: StockMovement, b: StockMovement) {
    StocktakeOf(a, b.userId, b.productId) && b.kind.Stocktake? ==> KeyBefore(a.occurredAt, a.id, b.occurredAt, b.id)
  }

  /** The log is numbered 1, 2, 3, ... up to the counter, and its entries are
      well formed and owned by the account of their entity. */
  ghost predicate LogNumbered(t: Tables) {
    && t.lastSeq == |t.changeLog|
    && forall i | 0 <= i < |t.changeLog| :: EntrySound(t.changeLog[i], i + 1)
  }

  predicate EntrySound(e: ChangeLogEntry, cursor: nat) {
    && e.cursor == cursor
    && match e.payload
       case ProductPayload(v) =>
         && e.entity == ProductEntity && e.entityId == v.id && (e.op.Delete? <==> v.deletedAt.Some?)
         && SoundProductView(v)
       case MovementPayload(v, _) =>
         e.entity == MovementEntity && e.entityId == v.id && e.op.Upsert? && SoundMovementView(v)
  }

  /** The entry is accounted for by the current rows: its movement is in the
      ledger, its product version is not ahead, and a tombstone is final. */
  ghost predicate Reflected(t: Tables, e: ChangeLogEntry) {
    match e.payload
    case ProductPayload(v) =>
      && v.id in t.products && t.products[v.id].userId == e.userId
      && v.version <= t.products[v.id].version
      && (v.version == t.products[v.id].version || v.deletedAt.Some? ==> v == ViewProduct(t.products[v.id]))
    case MovementPayload(v, _) =>
      exists i | 0 <= i < |t.movements| :: t.movements[i].userId == e.userId && ViewMovement(t.movements[i]) == v
  }

  ghost predicate LogReflected(t: Tables) {
    forall i | 0 <= i < |t.changeLog| :: Reflected(t, t.changeLog[i])
  }

  // ----- Outcomes and the log -----

  function CursorOf(t: Tables, key: OperationKey): Option<nat>
    requires key in t.syncOps
  {
    var response := t.syncOps[key].response;
    if response.EmptyObject? then None else response.result.cursor
  }

  /** A committed outcome is final, replayable, and an applied one names a log
      entry of its own account and device. */
  ghost predicate OutcomeSound(t: Tables, key: OperationKey)
    requires key in t.syncOps
  {
    var row := t.syncOps[key];
    && row.deviceId == key.deviceId && row.opId == key.opId && DeviceOwned(t, row.userId, key.deviceId)
    && row.response.Encoded? && row.completedAt.Some?
    && row.response.result.opId == key.opId && ValidResult(row.response.result)
    && row.status == row.response.result.status && row.reason == row.response.result.reason
    && row.reason != Some(MovementConflict) && row.reason != Some(ProductConflict)
    && (row.status.Applied? ==>
          var c := row.response.result.cursor.value;
          && 1 <= c <= |t.changeLog|
          && t.changeLog[c - 1].userId == row.userId && t.changeLog[c - 1].originDeviceId == key.deviceId
          && (t.changeLog[c - 1].payload.MovementPayload? ==>
                t.changeLog[c - 1].payload.stocktake == row.response.result.stocktake))
  }

  /** Applied outcomes and log entries correspond one to one. */
  ghost predicate OutcomesMatchLog(t: Tables) {
    && (forall key | key in t.syncOps :: OutcomeSound(t, key))
    && (forall a, b | a in t.syncOps && b in t.syncOps && a != b ::
          CursorOf(t, a).Some? ==> CursorOf(t, a) != CursorOf(t, b))
    && (forall i | 1 <= i <= |t.changeLog| :: HasOutcome(t, i))
  }

  ghost predicate HasOutcome(t: Tables, cursor: nat) {
    exists key | key in t.syncOps :: CursorOf(t, key) == Some(cursor)
  }

  // ----- Version chain -----

  /** The product states that the log carries for one product, in log order. */
  function History(log: seq<ChangeLogEntry>, id: Uuid): seq<ProductView> {
    if log == [] then []
    else
      var e := log[|log| - 1];
      History(log[..|log| - 1], id) +
      (if e.payload.ProductPayload? && e.payload.product.id == id then [e.payload.product] else [])
  }

  /** Versions 1, 2, ..., n; a tombstone only last; the last is the row. */
  ghost predicate Chained(t: Tables, id: Uuid) {
    var h := History(t.changeLog, id);
    if id in t.products then
      && |h| == t.products[id].version
      && (forall i | 0 <= i < |h| :: h[i].version == i + 1 && (h[i].deletedAt.Some? ==> i == |h| - 1))
      && h != [] && h[|h| - 1] == ViewProduct(t.products[id])
    else h == []
  }

  ghost predicate VersionsChained(t: Tables) {
    forall id: Uuid :: Chained(t, id)
  }

  ghost predicate Valid(t: Tables) {
    && Keyed(t) && LedgerSound(t) && ProjectionExact(t) && BarcodesUnique(t) && StocktakesAnchored(t)
    && LogNumbered(t) && LogReflected(t) && OutcomesMatchLog(t) && VersionsChained(t)
  }

  // ----- A fresh database -----

  lemma EmptyValid(devices: map<Uuid, Uuid>)
    ensures Valid(EmptyTables(devices))
  {
  }

  // ----- One completed operation keeps every part -----

  lemma KeepsLedger(t: Tables, who: Identity, opId: Uuid, d: Decision, clock: Clock)
    requires Keyed(t) && LedgerSound(t) && !d.Abandon? && Admissible(t, who, d)
    ensures Keyed(Complete(t, who, opId, d, clock)) && LedgerSound(Complete(t, who, opId, d, clock))
  {
    var after := Complete(t, who, opId, d, clock);
    forall i | 0 <= i < |after.movements| ensures RowSound(after, i) {
      var m := after.movements[i];
      if i < |t.movements| {
        assert RowSound(t, i);
      }
      if m.reversesId.Some? {
        var j :| 0 <= j < i && t.movements[j].id == m.reversesId.value
          && Concerns(t.movements[j], m.userId, m.productId);
        assert after.movements[j] == t.movements[j];
      }
    }
  }

  lemma NewProductIsExact(t: Tables, p: Product)
    requires LedgerSound(t) && p.id !in t.products
    ensures LedgerQty(t.movements, p.userId, p.id) == 0 && LedgerLast(t.movements, p.userId, p.id) == None
  {
    forall m | m in t.movements ensures !Concerns(m, p.userId, p.id) {
      var i :| 0 <= i < |t.movements| && t.movements[i] == m;
      assert RowSound(t, i);
    }
    NoRows(t.movements, p.userId, p.id);
  }

  lemma ProductKeepsProjection(t: Tables, p: Product, now: Timestamp)
    requires LedgerSound(t) && ProjectionExact(t)
    requires p.id in t.products ==> t.products[p.id].userId == p.userId
    ensures ProjectionExact(P.AfterWrite(t, p, now))
  {
    if p.id !in t.products {
      NewProductIsExact(t, p);
    }
  }

  lemma MovementKeepsProjection(t: Tables, m: StockMovement, now: Timestamp)
    requires ProjectionExact(t) && M.ActiveAndOwned(t.products, m.userId, m.productId)
    ensures ProjectionExact(M.AfterAppend(t, m, now))
  {
    var next := M.AfterAppend(t, m, now);
    forall id | id in next.products
      ensures next.balances[id].qty == LedgerQty(next.movements, next.products[id].userId, id)
      ensures next.balances[id].lastMovementAt == LedgerLast(next.movements, next.products[id].userId, id)
    {
      AppendRow(t.movements, m, t.products[id].userId, id);
    }
  }

  lemma KeepsProjection(t: Tables, who: Identity, opId: Uuid, d: Decision, clock: Clock)
    requires LedgerSound(t) && ProjectionExact(t) && !d.Abandon? && Admissible(t, who, d)
    ensures ProjectionExact(Complete(t, who, opId, d, clock))
  {
    match d
    case WriteProduct(p, _) => ProductKeepsProjection(t, p, clock.transaction);
    case WriteMovement(m, _) => MovementKeepsProjection(t, m, clock.transaction);
    case Reject(_, _, _) =>
  }

  lemma KeepsBarcodes(t: Tables, who: Identity, opId: Uuid, d: Decision, clock: Clock)
    requires BarcodesUnique(t) && !d.Abandon? && Admissible(t, who, d)
    ensures BarcodesUnique(Complete(t, who, opId, d, clock))
  {
  }

  lemma KeepsAnchors(t: Tables, who: Identity, opId: Uuid, d: Decision, clock: Clock)
    requires StocktakesAnchored(t) && !d.Abandon? && Admissible(t, who, d)
    ensures StocktakesAnchored(Complete(t, who, opId, d, clock))
  {
    if d.WriteMovement? {
      var m := d.movement;
      var after := t.movements + [m];
      forall i, j | 0 <= i < j < |after| ensures OrderedStocktakes(after[i], after[j]) {
        if j < |t.movements| {
          assert OrderedStocktakes(t.movements[i], t.movements[j]);
        } else {
          assert t.movements[i] in t.movements;
        }
      }
      forall i | 0 <= i < |after| && after[i].kind.Stocktake? && after[i].countedQty.Some?
        ensures after[i].countedQty.value == LedgerQty(after[..i + 1], after[i].userId, after[i].productId)
      {
        if i < |t.movements| {
          assert after[..i + 1] == t.movements[..i + 1];
        } else {
          assert after[..i + 1] == after;
          AppendRow(t.movements, m, m.userId, m.productId);
        }
      }
    }
  }

  lemma KeepsLog(t: Tables, who: Identity, opId: Uuid, d: Decision, clock: Clock)
    requires Keyed(t) && LogNumbered(t) && LogReflected(t) && !d.Abandon? && Admissible(t, who, d)
    ensures LogNumbered(Complete(t, who, opId, d, clock)) && LogReflected(Complete(t, who, opId, d, clock))
  {
    var after := Complete(t, who, opId, d, clock);
    forall i | 0 <= i < |after.changeLog| ensures Reflected(after, after.changeLog[i]) {
      if i < |t.changeLog| {
        var e := t.changeLog[i];
        assert Reflected(t, e);
        if e.payload.MovementPayload? {
          var k :| 0 <= k < |t.movements| && t.movements[k].userId == e.userId
            && ViewMovement(t.movements[k]) == e.payload.movement;
          assert after.movements[k] == t.movements[k];
        }
      } else if d.WriteMovement? {
        assert after.movements[|t.movements|] == d.movement;
      }
    }
  }

  lemma KeepsOldOutcome(t: Tables, who: Identity, opId: Uuid, d: Decision, clock: Clock, key: OperationKey)
    requires LogNumbered(t) && OutcomesMatchLog(t) && !d.Abandon?
    requires key in t.syncOps && key != OperationKey(who.deviceId, opId)
    ensures OutcomeSound(Complete(t, who, opId, d, clock), key)
    ensures CursorOf(Complete(t, who, opId, d, clock), key) == CursorOf(t, key)
    ensures CursorOf(t, key).Some? ==> CursorOf(t, key).value <= |t.changeLog|
  {
    assert OutcomeSound(t, key);
  }

  lemma StoresNewOutcome(t: Tables, who: Identity, opId: Uuid, d: Decision, clock: Clock)
    requires LogNumbered(t) && !d.Abandon? && Admissible(t, who, d) && CanReserve(t, who, opId) && opId != NIL_UUID
    ensures OutcomeSound(Complete(t, who, opId, d, clock), OperationKey(who.deviceId, opId))
    ensures CursorOf(Complete(t, who, opId, d, clock), OperationKey(who.deviceId, opId)) ==
            if d.Reject? then None else Some(|t.changeLog| + 1)
  {
  }

  lemma KeepsOutcome(t: Tables, who: Identity, opId: Uuid, d: Decision, clock: Clock, key: OperationKey)
    requires LogNumbered(t) && OutcomesMatchLog(t) && !d.Abandon? && Admissible(t, who, d)
    requires CanReserve(t, who, opId) && opId != NIL_UUID
    requires key in Complete(t, who, opId, d, clock).syncOps
    ensures OutcomeSound(Complete(t, who, opId, d, clock), key)
    ensures key != OperationKey(who.deviceId, opId) ==>
      key in t.syncOps && CursorOf(Complete(t, who, opId, d, clock), key) == CursorOf(t, key)
    ensures key != OperationKey(who.deviceId, opId) && CursorOf(t, key).Some? ==>
      CursorOf(t, key).value <= |t.changeLog|
    ensures key == OperationKey(who.deviceId, opId) ==>
      CursorOf(Complete(t, who, opId, d, clock), key) == if d.Reject? then None else Some(|t.changeLog| + 1)
  {
    if key != OperationKey(who.deviceId, opId) {
      KeepsOldOutcome(t, who, opId, d, clock, key);
    } else {
      StoresNewOutcome(t, who, opId, d, clock);
    }
  }

  lemma KeepsOutcomes(t: Tables, who: Identity, opId: Uuid, d: Decision, clock: Clock)
    requires LogNumbered(t) && OutcomesMatchLog(t) && !d.Abandon? && Admissible(t, who, d)
    requires CanReserve(t, who, opId) && opId != NIL_UUID
    ensures OutcomesMatchLog(Complete(t, who, opId, d, clock))
  {
    var after := Complete(t, who, opId, d, clock);
    forall key | key in after.syncOps ensures OutcomeSound(after, key) {
      KeepsOutcome(t, who, opId, d, clock, key);
    }
    forall a, b | a in after.syncOps && b in after.syncOps && a != b && CursorOf(after, a).Some?
      ensures CursorOf(after, a) != CursorOf(after, b)
    {
      KeepsOutcome(t, who, opId, d, clock, a);
      KeepsOutcome(t, who, opId, d, clock, b);
    }
    forall i | 1 <= i <= |after.changeLog| ensures HasOutcome(after, i) {
      if i <= |t.changeLog| {
        assert HasOutcome(t, i);
        var key :| key in t.syncOps && CursorOf(t, key) == Some(i);
        KeepsOutcome(t, who, opId, d, clock, key);
      } else {
        KeepsOutcome(t, who, opId, d, clock, OperationKey(who.deviceId, opId));
      }
    }
  }

  lemma AppendEntry(log: seq<ChangeLogEntry>, e: ChangeLogEntry, id: Uuid)
    ensures History(log + [e], id) ==
            History(log, id) +
              (if e.payload.ProductPayload? && e.payload.product.id == id then [e.payload.product] else [])
  {
    assert (log + [e])[..|log|] == log;
  }

  lemma ProductKeepsChain(t: Tables, who: Identity, opId: Uuid, d: Decision, clock: Clock, id: Uuid)
    requires Keyed(t) && Chained(t, id) && d.WriteProduct? && Admissible(t, who, d)
    ensures Chained(Complete(t, who, opId, d, clock), id)
  {
    AppendEntry(t.changeLog, EntryOf(who, d, t.lastSeq + 1, clock.transaction), id);
  }

  lemma MovementKeepsChain(t: Tables, who: Identity, opId: Uuid, d: Decision, clock: Clock, id: Uuid)
    requires Chained(t, id) && d.WriteMovement?
    ensures Chained(Complete(t, who, opId, d, clock), id)
  {
    AppendEntry(t.changeLog, EntryOf(who, d, t.lastSeq + 1, clock.transaction), id);
  }

  lemma KeepsVersions(t: Tables, who: Identity, opId: Uuid, d: Decision, clock: Clock)
    requires Keyed(t) && VersionsChained(t) && !d.Abandon? && Admissible(t, who, d)
    ensures VersionsChained(Complete(t, who, opId, d, clock))
  {
    forall id: Uuid ensures Chained(Complete(t, who, opId, d, clock), id) {
      assert Chained(t, id);
      match d
      case WriteProduct(_, _) => ProductKeepsChain(t, who, opId, d, clock, id);
      case WriteMovement(_, _) => MovementKeepsChain(t, who, opId, d, clock, id);
      case Reject(_, _, _) =>
    }
  }

  /** A completed operation keeps the whole invariant. */
  lemma CompleteKeepsValid(t: Tables, who: Identity, opId: Uuid, d: Decision, clock: Clock)
    requires Valid(t) && CanReserve(t, who, opId) && opId != NIL_UUID
    requires !d.Abandon? && Admissible(t, who, d)
    ensures Valid(Complete(t, who, opId, d, clock))
  {
    KeepsLedger(t, who, opId, d, clock);
    KeepsProjection(t, who, opId, d, clock);
    KeepsBarcodes(t, who, opId, d, clock);
    KeepsAnchors(t, who, opId, d, clock);
    KeepsLog(t, who, opId, d, clock);
    KeepsOutcomes(t, who, opId, d, clock);
    KeepsVersions(t, who, opId, d, clock);
  }

  /** Processing any operation in a valid state leaves a valid state, and in a
      valid state a stored outcome of the same account always replays. */
  lemma ProcessKeepsValid(t: Tables, who: Identity, op: Operation, clock: Clock)
    requires Valid(t)
    ensures Process(t, who, op, clock).Done? ==> Valid(Process(t, who, op, clock).tables)
    ensures OperationKey(who.deviceId, op.opId) in t.syncOps && DeviceOwned(t, who.userId, who.deviceId) &&
            NIL_UUID !in {who.userId, who.deviceId, op.opId} ==>
            Process(t, who, op, clock) == Done(t, t.syncOps[OperationKey(who.deviceId, op.opId)].response.result)
  {
    var key := OperationKey(who.deviceId, op.opId);
    if key in t.syncOps {
      assert OutcomeSound(t, key);
    } else if NIL_UUID !in {who.userId, who.deviceId, op.opId} && CanReserve(t, who, op.opId) {
      DecideAdmissible(t, who, op, clock.transaction);
      var d := Decide(t, who, op, clock.transaction);
      if !d.Abandon? {
        CompleteKeepsValid(t, who, op.opId, d, clock);
      }
    }
  }
}
