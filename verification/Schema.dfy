/** Rows and tables of the canonical PostgreSQL database, and the outcome of
    one synchronization operation as it is stored and replayed. */
module Schema {
  import opened Prelude

  /** The client-owned columns of a product. */
  datatype Fields = Fields(
    barcode: Option<string>, sku: Option<string>, name: string,
    description: Option<string>, unit: string, category: Option<string>,
    minStock: Option<int32>)

  /** A product has a name and a unit, and its stock threshold is not negative. */
  predicate CompleteFields(f: Fields) {
    f.name != "" && f.unit != "" && (f.minStock.Some? ==> f.minStock.value >= 0)
  }

  datatype Product = Product(
    id: Uuid, userId: Uuid, fields: Fields, version: int,
    updatedAt: Timestamp, updatedBy: Uuid,
    deletedAt: Option<Timestamp>, createdAt: Timestamp)
  {
    predicate Active() {
      deletedAt.None?
    }
  }

  datatype MovementKind = Receive | Issue | Adjust | Stocktake | UnknownKind(name: string)

  datatype StockMovement = StockMovement(
    id: Uuid, userId: Uuid, productId: Uuid, delta: int32, kind: MovementKind,
    note: Option<string>, occurredAt: Timestamp, rawOccurredAt: Timestamp,
    clockOffsetMs: int, countedQty: Option<int32>, reversesId: Option<Uuid>,
    deviceId: Uuid, serverCreatedAt: Timestamp)

  datatype ProductBalance = ProductBalance(
    qty: int, lastMovementAt: Option<Timestamp>, updatedAt: Timestamp)

  /** A balance derived from the ledger, as opposed to the stored projection. */
  datatype LedgerBalance = LedgerBalance(
    productId: Uuid, qty: int, lastMovementAt: Option<Timestamp>)

  datatype StocktakeIntent = StocktakeIntent(
    movementId: Uuid, productId: Uuid, delta: int32, countedQty: int32,
    occurredAt: Timestamp, deviceId: Uuid)

  datatype StocktakeResolution = StocktakeResolution(
    productId: Uuid, canonicalBalance: int, canonical: StocktakeIntent,
    incoming: StocktakeIntent, displaced: seq<StocktakeIntent>)

  /** What replicas see of a product: every column but the owning account. */
  datatype ProductView = ProductView(
    id: Uuid, fields: Fields, version: int, updatedAt: Timestamp,
    updatedBy: Uuid, deletedAt: Option<Timestamp>, createdAt: Timestamp)

  /** What replicas see of a movement: every column but the owning account. */
  datatype MovementView = MovementView(
    id: Uuid, productId: Uuid, delta: int32, kind: MovementKind,
    note: Option<string>, occurredAt: Timestamp, rawOccurredAt: Timestamp,
    clockOffsetMs: int, countedQty: Option<int32>, reversesId: Option<Uuid>,
    deviceId: Uuid, serverCreatedAt: Timestamp)

  function ViewProduct(p: Product): ProductView {
    ProductView(p.id, p.fields, p.version, p.updatedAt, p.updatedBy, p.deletedAt, p.createdAt)
  }

  function ViewMovement(m: StockMovement): MovementView {
    MovementView(m.id, m.productId, m.delta, m.kind, m.note, m.occurredAt, m.rawOccurredAt,
                 m.clockOffsetMs, m.countedQty, m.reversesId, m.deviceId, m.serverCreatedAt)
  }

  /** The views lose nothing but the account. */
  lemma ViewsLoseNothing(p: Product, q: Product, m: StockMovement, n: StockMovement)
    ensures ViewProduct(p) == ViewProduct(q) && p.userId == q.userId ==> p == q
    ensures ViewMovement(m) == ViewMovement(n) && m.userId == n.userId ==> m == n
  {
  }

  /** What the client checks of a movement before it looks at its tables. */
  predicate SoundMovementView(v: MovementView) {
    && v.delta != 0 && !v.kind.UnknownKind?
    && (v.countedQty.Some? <==> v.kind.Stocktake?) && (v.countedQty.Some? ==> v.countedQty.value >= 0)
    && (v.reversesId.Some? ==> v.kind.Adjust? && v.reversesId.value != v.id)
  }

  predicate SoundProductView(v: ProductView) {
    CompleteFields(v.fields) && v.version >= 0
  }

  datatype Entity = ProductEntity | MovementEntity

  datatype ChangeOp = Upsert | Delete

  datatype ChangePayload =
    | ProductPayload(product: ProductView)
    | MovementPayload(movement: MovementView, stocktake: Option<StocktakeResolution>)

  datatype ChangeLogEntry = ChangeLogEntry(
    cursor: nat, userId: Uuid, entity: Entity, entityId: Uuid, op: ChangeOp,
    payload: ChangePayload, originDeviceId: Uuid, createdAt: Timestamp)

  datatype Status = Processing | Applied | Rejected

  datatype Reason =
    | InvalidOperation | InvalidProduct | InvalidMovement | InvalidDelta
    | InvalidMovementKind | InvalidReversal | InvalidStocktake | MovementNotFound
    | InvalidBaseVersion | ProductNotFound | ProductDeleted | VersionConflict
    | BarcodeConflict | ProductConflict | MovementConflict | StocktakeDisplaced
    | OwnershipViolation | DeviceMismatch

  datatype OperationResult = OperationResult(
    opId: Uuid, status: Status, cursor: Option<nat>, reason: Option<Reason>,
    serverState: Option<ProductView>, stocktake: Option<StocktakeResolution>)

  /** The response column: the placeholder of a reservation, or a result. */
  datatype StoredResponse = EmptyObject | Encoded(result: OperationResult)

  datatype SyncOperation = SyncOperation(
    deviceId: Uuid, opId: Uuid, userId: Uuid, status: Status,
    reason: Option<Reason>, response: StoredResponse,
    receivedAt: Timestamp, completedAt: Option<Timestamp>)

  /** Primary key of sync_ops. */
  datatype OperationKey = OperationKey(deviceId: Uuid, opId: Uuid)

  /** Every table an operation can touch. The ledger and the change log are
      kept in the order in which their rows were inserted. `devices` maps a
      registered device to its account. */
  datatype Tables = Tables(
    devices: map<Uuid, Uuid>,
    products: map<Uuid, Product>,
    balances: map<Uuid, ProductBalance>,
    movements: seq<StockMovement>,
    changeLog: seq<ChangeLogEntry>,
    lastSeq: nat,
    syncOps: map<OperationKey, SyncOperation>)

  function EmptyTables(devices: map<Uuid, Uuid>): Tables {
    Tables(devices, map[], map[], [], [], 0, map[])
  }

  /** Every product row is stored under its primary key. */
  ghost predicate Indexed(t: Tables) {
    forall id | id in t.products :: t.products[id].id == id
  }

  predicate DeviceOwned(t: Tables, userId: Uuid, deviceId: Uuid) {
    deviceId in t.devices && t.devices[deviceId] == userId
  }

  /** Would the partial unique index on active barcodes reject this value for
      product `id`? The index is global: it does not look at the account. */
  predicate BarcodeTaken(products: map<Uuid, Product>, id: Uuid, barcode: Option<string>) {
    barcode.Some? &&
    exists q | q in products :: q != id && products[q].Active() && products[q].fields.barcode == barcode
  }

  predicate MovementExists(ms: seq<StockMovement>, id: Uuid) {
    exists i | 0 <= i < |ms| :: ms[i].id == id
  }

  /** The row with this primary key, if any. */
  function FindMovement(ms: seq<StockMovement>, id: Uuid): (r: Option<StockMovement>)
    ensures r.None? <==> !MovementExists(ms, id)
    ensures r.Some? ==> r.value in ms && r.value.id == id
  {
    if ms == [] then None
    else if ms[|ms| - 1].id == id then Some(ms[|ms| - 1])
    else
      var rest := ms[..|ms| - 1];
      assert forall m :: m in rest ==> m in ms;
      assert forall i | 0 <= i < |ms| :: i < |rest| ==> ms[i] == rest[i];
      FindMovement(rest, id)
  }

  /** Products of one account that hold `barcode` and are not deleted. */
  function ActiveOwners(products: map<Uuid, Product>, userId: Uuid, barcode: string): set<Uuid> {
    set id | id in products && products[id].userId == userId &&
             products[id].fields.barcode == Some(barcode) && products[id].Active()
  }

  lemma Least(ids: set<Uuid>) returns (id: Uuid)
    requires ids != {}
    ensures id in ids && forall other | other in ids :: id <= other
    decreases |ids|
  {
    var first :| first in ids;
    var rest := ids - {first};
    if rest == {} {
      id := first;
    } else {
      var least := Least(rest);
      id := if first < least then first else least;
    }
    forall other | other in ids ensures id <= other {
      assert other == first || other in rest;
    }
  }

  lemma LeastExists(ids: set<Uuid>)
    requires ids != {}
    ensures exists id :: id in ids && forall other | other in ids :: id <= other
  {
    var id := Least(ids);
  }

  /** ORDER BY id LIMIT 1 over those products. */
  ghost function ActiveProductByBarcode(products: map<Uuid, Product>, userId: Uuid,
                                        barcode: string): (r: Option<Product>)
    ensures r.None? <==> ActiveOwners(products, userId, barcode) == {}
    ensures r.Some? ==>
      exists id :: id in ActiveOwners(products, userId, barcode) && r.value == products[id] &&
        forall other | other in ActiveOwners(products, userId, barcode) :: id <= other
  {
    var owners := ActiveOwners(products, userId, barcode);
    if owners == {} then None
    else
      LeastExists(owners);
      var id :| id in owners && forall other | other in owners :: id <= other;
      Some(products[id])
  }
}
