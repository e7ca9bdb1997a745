/** What the product service decides about a create, an edit and a tombstone. */
module ProductPolicy {
  import opened Prelude
  import opened Schema

  datatype ProductError =
    | InvalidInput | NoProduct | DeletedProduct | StaleVersion | TakenBarcode
    | DuplicateProduct | NotOwner | Unavailable

  const DEFAULT_UNIT: string := "pcs"

  function NormalizeFields(f: Fields): Fields {
    f.(unit := if f.unit == "" then DEFAULT_UNIT else f.unit,
       barcode := NormalizeOptional(f.barcode), sku := NormalizeOptional(f.sku),
       description := NormalizeOptional(f.description), category := NormalizeOptional(f.category))
  }

  predicate ValidFields(f: Fields) {
    f.name != "" && (f.minStock.Some? ==> f.minStock.value >= 0)
  }

  function ClassifyMiss(products: map<Uuid, Product>, userId: Uuid, id: Uuid): ProductError {
    if id !in products then NoProduct
    else if products[id].userId != userId then NotOwner
    else if !products[id].Active() then DeletedProduct
    else StaleVersion
  }

  /** `Refuse` leaves the transaction usable. `Clash` is a violated constraint,
      which aborts it; only a barcode clash is undone by a savepoint. */
  datatype ProductDecision =
    | Refuse(error: ProductError)
    | Clash(error: ProductError)
    | Write(product: Product)

  function NewProduct(id: Uuid, userId: Uuid, deviceId: Uuid, fields: Fields, now: Timestamp): Product {
    Product(id, userId, fields, 1, now, deviceId, None, now)
  }

  function DecideCreate(t: Tables, id: Uuid, userId: Uuid, deviceId: Uuid, fields: Fields,
                        now: Timestamp): ProductDecision
  {
    var normalized := NormalizeFields(fields);
    if NIL_UUID in {id, userId, deviceId} || !ValidFields(fields) then Refuse(InvalidInput)
    else if id in t.products then Clash(DuplicateProduct)
    else if BarcodeTaken(t.products, id, normalized.barcode) then Clash(TakenBarcode)
    else if !DeviceOwned(t, userId, deviceId) then Clash(NotOwner)
    else Write(NewProduct(id, userId, deviceId, normalized, now))
  }

  function Edited(p: Product, deviceId: Uuid, fields: Fields, now: Timestamp): Product {
    p.(fields := fields, version := p.version + 1, updatedAt := now, updatedBy := deviceId)
  }

  function DecideUpdate(t: Tables, id: Uuid, userId: Uuid, deviceId: Uuid, fields: Fields, baseVersion: int,
                        now: Timestamp): ProductDecision
  {
    var normalized := NormalizeFields(fields);
    if NIL_UUID in {id, userId, deviceId} || baseVersion <= 0 || !ValidFields(fields) then Refuse(InvalidInput)
    else if id !in t.products || t.products[id].userId != userId || !t.products[id].Active()
            || t.products[id].version != baseVersion then
      Refuse(ClassifyMiss(t.products, userId, id))
    else if BarcodeTaken(t.products, id, normalized.barcode) then Clash(TakenBarcode)
    else if !DeviceOwned(t, userId, deviceId) then Clash(NotOwner)
    else Write(Edited(t.products[id], deviceId, normalized, now))
  }

  function Tombstone(p: Product, deviceId: Uuid, now: Timestamp): Product {
    p.(deletedAt := Some(now), version := p.version + 1, updatedAt := now, updatedBy := deviceId)
  }

  /** A delete beats every edit whose version its base does not exceed. */
  function DecideDelete(t: Tables, id: Uuid, userId: Uuid, deviceId: Uuid, baseVersion: int,
                        now: Timestamp): ProductDecision
  {
    if NIL_UUID in {id, userId, deviceId} || baseVersion <= 0 then Refuse(InvalidInput)
    else if id !in t.products || t.products[id].userId != userId || !t.products[id].Active()
            || t.products[id].version < baseVersion then
      Refuse(ClassifyMiss(t.products, userId, id))
    else if !DeviceOwned(t, userId, deviceId) then Clash(NotOwner)
    else Write(Tombstone(t.products[id], deviceId, now))
  }

  /** The writes of an accepted product mutation. A create also opens a zero
      balance; an edit or a tombstone leaves the projection alone. */
  function AfterWrite(t: Tables, p: Product, now: Timestamp): Tables {
    t.(products := t.products[p.id := p],
       balances := if p.id in t.products then t.balances else t.balances[p.id := ProductBalance(0, None, now)])
  }
}
