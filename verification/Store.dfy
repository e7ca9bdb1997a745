/** The PostgreSQL database as the services see it: one method per typed query,
    inside a transaction that a violated constraint or a lost connection
    aborts, with one savepoint level, commit and rollback. */
module Store {
  import opened Prelude
  import opened Schema
  import opened Ledger
  import opened ChangeFeed
  import M = MovementPolicy
  import P = ProductPolicy

  datatype Constraint =
    | ProductsPkey | ActiveBarcodeIndex | ProductsDeviceOwner
    | MovementsDelta | MovementsKind | MovementsPkey | MovementsDeviceOwner | MovementsReverses

  datatype DbError = ConnectionLost | TransactionAborted | Violates(constraint: Constraint)

  /** The outcome of one statement: a row, pgx.ErrNoRows, or an error. */
  datatype Answer<+T> = Row(value: T) | NoRows | Failed(error: DbError)

  /** When the connection breaks: never, or at the statement after the given
      number of them. If that statement is the COMMIT itself, `durable` says
      whether the server had already made the transaction permanent. */
  datatype Fault = Healthy | LostAfter(statements: nat, durable: bool)

  /** A stored projection row, joined to its product. */
  datatype ProjectedBalance = ProjectedBalance(productId: Uuid, qty: int, lastMovementAt: Option<Timestamp>)

  /** ORDER BY on a unique id. */
  predicate Ascending(ids: seq<Uuid>) {
    forall i, j | 0 <= i < j < |ids| :: ids[i] < ids[j]
  }

  /** The ids of a set, in order. */
  method SortIds(ids: set<Uuid>) returns (sorted: seq<Uuid>)
    ensures Ascending(sorted) && |sorted| == |ids|
    ensures forall id :: id in sorted <==> id in ids
    decreases |ids|
  {
    if ids == {} {
      return [];
    }
    var first := LeastOf(ids);
    var rest := SortIds(ids - {first});
    AscendingCons(first, rest);
    sorted := [first] + rest;
  }

  method LeastOf(ids: set<Uuid>) returns (least: Uuid)
    requires ids != {}
    ensures least in ids && forall id | id in ids :: least <= id
  {
    LeastExists(ids);
    least :| least in ids && forall id | id in ids :: least <= id;
  }

  lemma AscendingCons(first: Uuid, rest: seq<Uuid>)
    requires Ascending(rest) && forall id | id in rest :: first < id
    ensures Ascending([first] + rest)
  {
    var all := [first] + rest;
    forall i, j | 0 <= i < j < |all| ensures all[i] < all[j] {
      assert all[j] == rest[j - 1] && rest[j - 1] in rest;
    }
  }

  lemma ByIds(ids: seq<Uuid>, all: set<Uuid>)
    requires forall id :: id in ids <==> id in all
    ensures forall i | 0 <= i < |ids| :: ids[i] in all
    ensures forall id | id in all :: exists i | 0 <= i < |ids| :: ids[i] == id
  {
    assert forall i | 0 <= i < |ids| :: ids[i] in ids;
  }

  /** One balance per product of the account, recomputed from the ledger. */
  ghost predicate LedgerBalances(t: Tables, userId: Uuid, rows: seq<LedgerBalance>) {
    && (forall i, j | 0 <= i < j < |rows| :: rows[i].productId < rows[j].productId)
    && (forall i | 0 <= i < |rows| ::
          var id := rows[i].productId;
          && id in t.products && t.products[id].userId == userId
          && rows[i] == LedgerBalance(id, LedgerQty(t.movements, userId, id), LedgerLast(t.movements, userId, id)))
    && (forall id | id in t.products && t.products[id].userId == userId ::
          exists i | 0 <= i < |rows| :: rows[i].productId == id)
  }

  function ProductsOf(t: Tables, userId: Uuid): set<Uuid> {
    set id | id in t.products && t.products[id].userId == userId
  }

  /** What the recomputation of an account's balances finds in these tables. */
  function RecomputedBalances(t: Tables, userId: Uuid, now: Timestamp): map<Uuid, ProductBalance> {
    map id | id in ProductsOf(t, userId) ::
      ProductBalance(LedgerQty(t.movements, userId, id), LedgerLast(t.movements, userId, id), now)
  }

  /** Balance rows inserted, or written over those with the same key. */
  function WithBalances(t: Tables, rows: map<Uuid, ProductBalance>): Tables {
    t.(balances := t.balances + rows)
  }

  /** The account's products, tombstones included, in id order. */
  ghost predicate AccountProducts(t: Tables, userId: Uuid, rows: seq<Product>) {
    && (forall i, j | 0 <= i < j < |rows| :: rows[i].id < rows[j].id)
    && (forall i | 0 <= i < |rows| :: rows[i].id in ProductsOf(t, userId) && rows[i] == t.products[rows[i].id])
    && (forall id | id in ProductsOf(t, userId) :: exists i | 0 <= i < |rows| :: rows[i].id == id)
  }

  /** The account's ledger rows. */
  function AccountMovements(ms: seq<StockMovement>, userId: Uuid): seq<StockMovement> {
    if ms == [] then []
    else AccountMovements(ms[..|ms| - 1], userId) + (if ms[|ms| - 1].userId == userId then [ms[|ms| - 1]] else [])
  }

  /** The stored projection rows whose product belongs to the account. */
  ghost predicate ProjectedBalances(t: Tables, userId: Uuid, rows: seq<ProjectedBalance>) {
    && (forall i, j | 0 <= i < j < |rows| :: rows[i].productId < rows[j].productId)
    && (forall i | 0 <= i < |rows| ::
          var id := rows[i].productId;
          && id in t.products && t.products[id].userId == userId && id in t.balances
          && rows[i] == ProjectedBalance(id, t.balances[id].qty, t.balances[id].lastMovementAt))
    && (forall id | id in t.products && t.products[id].userId == userId && id in t.balances ::
          exists i | 0 <= i < |rows| :: rows[i].productId == id)
  }

  /** The foreign keys of a correction: its target is a row of the account. */
  predicate ReversesOwnRow(ms: seq<StockMovement>, m: StockMovement) {
    m.reversesId.Some? ==> exists i | 0 <= i < |ms| :: ms[i].id == m.reversesId.value && ms[i].userId == m.userId
  }

  /** ORDER BY product_id, occurred_at, id. */
  predicate RowBefore(a: StockMovement, b: StockMovement) {
    || a.productId < b.productId
    || (a.productId == b.productId && KeyBefore(a.occurredAt, a.id, b.occurredAt, b.id))
  }

  predicate RowsInOrder(rows: seq<StockMovement>) {
    forall i, j | 0 <= i < j < |rows| :: !RowBefore(rows[j], rows[i])
  }

  function InsertRow(rows: seq<StockMovement>, m: StockMovement): (more: seq<StockMovement>)
    requires RowsInOrder(rows)
    ensures RowsInOrder(more) && multiset(more) == multiset(rows) + multiset{m} && |more| == |rows| + 1
    ensures forall x :: x in more <==> x in rows || x == m
  {
    if rows == [] then [m]
    else
      var front, last := rows[..|rows| - 1], rows[|rows| - 1];
      assert rows == front + [last];
      if !RowBefore(m, last) then rows + [m]
      else
        var more := InsertRow(front, m);
        InsertBeforeLast(front, last, m, more);
        more + [last]
  }

  lemma InsertBeforeLast(front: seq<StockMovement>, last: StockMovement, m: StockMovement, more: seq<StockMovement>)
    requires RowsInOrder(front + [last]) && RowBefore(m, last) && RowsInOrder(more)
    requires forall x :: x in more <==> x in front || x == m
    ensures RowsInOrder(more + [last])
  {
    var rows := front + [last];
    forall i | 0 <= i < |more| ensures !RowBefore(last, more[i]) {
      assert more[i] in more;
      if more[i] in front {
        var k :| 0 <= k < |front| && front[k] == more[i];
        assert rows[k] == more[i] && rows[|front|] == last;
      }
    }
  }

  /** The rows of a table as such a query returns them. */
  function InOrder(ms: seq<StockMovement>): (rows: seq<StockMovement>)
    ensures RowsInOrder(rows) && multiset(rows) == multiset(ms) && |rows| == |ms|
  {
    if ms == [] then []
    else
      assert ms == ms[..|ms| - 1] + [ms[|ms| - 1]];
      InsertRow(InOrder(ms[..|ms| - 1]), ms[|ms| - 1])
  }

  /** By product, then by time, then by id. */
  lemma OrderInColumns(ms: seq<StockMovement>)
    ensures var rows := InOrder(ms);
      forall i, j | 0 <= i < j < |rows| ::
        || rows[i].productId < rows[j].productId
        || (rows[i].productId == rows[j].productId && rows[i].occurredAt < rows[j].occurredAt)
        || (rows[i].productId == rows[j].productId && rows[i].occurredAt == rows[j].occurredAt
            && rows[i].id <= rows[j].id)
  {
    var rows := InOrder(ms);
    forall i, j | 0 <= i < j < |rows| ensures !RowBefore(rows[j], rows[i]) {
    }
  }

  /** The stored balances joined to the account's products, by id. */
  method JoinBalances(t: Tables, userId: Uuid) returns (rows: seq<ProjectedBalance>)
    ensures ProjectedBalances(t, userId, rows)
  {
    var mine := set id | id in t.balances && id in ProductsOf(t, userId);
    var ids := SortIds(mine);
    ByIds(ids, mine);
    rows := [];
    for i := 0 to |ids|
      invariant |rows| == i
      invariant forall k | 0 <= k < i ::
        ids[k] in t.balances
          && rows[k] == ProjectedBalance(ids[k], t.balances[ids[k]].qty, t.balances[ids[k]].lastMovementAt)
    {
      rows := rows + [ProjectedBalance(ids[i], t.balances[ids[i]].qty, t.balances[ids[i]].lastMovementAt)];
    }
    forall id | id in t.products && t.products[id].userId == userId && id in t.balances
      ensures exists k | 0 <= k < |rows| :: rows[k].productId == id
    {
      assert id in mine;
      var k :| 0 <= k < |ids| && ids[k] == id;
      assert rows[k].productId == id;
    }
  }

  class Database {
    var devices: map<Uuid, Uuid>
    var products: map<Uuid, Product>
    var balances: map<Uuid, ProductBalance>
    var movements: seq<StockMovement>
    var changeLog: seq<ChangeLogEntry>
    var lastSeq: nat
    var syncOps: map<OperationKey, SyncOperation>

    var inTransaction: bool
    var undo: Tables
    var savepoint: Option<Tables>
    var aborted: bool
    var lost: bool
    var fault: Fault
    var now: Timestamp

    constructor (initial: Tables)
      requires Indexed(initial)
      ensures Valid() && Tables() == initial && !inTransaction
    {
      devices, products, balances := initial.devices, initial.products, initial.balances;
      movements, changeLog, lastSeq, syncOps := initial.movements, initial.changeLog, initial.lastSeq, initial.syncOps;
      inTransaction, undo, savepoint, aborted, lost, fault, now := false, initial, None, false, false, Healthy, 0;
    }

    function Tables(): Tables
      reads this
    {
      Schema.Tables(devices, products, balances, movements, changeLog, lastSeq, syncOps)
    }

    ghost predicate Valid()
      reads this
    {
      Indexed(Tables()) && Indexed(undo) && (savepoint.Some? ==> Indexed(savepoint.value))
    }

    method Restore(t: Tables)
      modifies this
      ensures Tables() == t
      ensures inTransaction == old(inTransaction) && undo == old(undo) && savepoint == old(savepoint)
      ensures aborted == old(aborted) && lost == old(lost) && fault == old(fault) && now == old(now)
    {
      devices, products, balances := t.devices, t.products, t.balances;
      movements, changeLog, lastSeq, syncOps := t.movements, t.changeLog, t.lastSeq, t.syncOps;
    }

    // ----- Transactions -----

    ghost predicate Open()
      reads this
    {
      Valid() && inTransaction && (lost ==> aborted) && (fault.Healthy? ==> !lost)
    }

    /** Still the same open transaction, on the same connection. */
    twostate predicate Continues()
      reads this
    {
      && Open()
      && undo == old(undo) && now == old(now) && (old(lost) ==> lost)
      && (fault.Healthy? <==> old(fault).Healthy?)
      && (fault.LostAfter? && old(fault).LostAfter? ==> fault.durable == old(fault).durable)
    }

    /** The statement reached the server in a usable transaction. */
    twostate predicate Worked()
      reads this
    {
      !old(aborted) && !lost
    }

    /** What every statement promises besides its own meaning: one that did not
        reach the server fails, changes nothing and leaves the transaction
        aborted; a violated constraint aborts it as well. */
    twostate predicate Statement(failed: bool, violated: bool)
      reads this
    {
      && Continues() && savepoint == old(savepoint)
      && (!Worked() ==> failed && !violated && aborted && Tables() == old(Tables()))
      && (Worked() ==> (failed <==> violated) && (aborted <==> violated))
    }

    method Begin(f: Fault, at: Timestamp)
      requires Valid() && !inTransaction
      modifies this
      ensures Open() && !aborted && !lost && savepoint.None? && fault == f && now == at
      ensures Tables() == old(Tables()) && undo == old(Tables())
    {
      inTransaction, undo, savepoint, aborted, lost, fault, now := true, Tables(), None, false, false, f, at;
    }

    /** Sends one statement, if the connection still stands. */
    method Send() returns (failure: Option<DbError>)
      requires Open()
      modifies this
      ensures Continues() && Tables() == old(Tables()) && savepoint == old(savepoint)
      ensures failure.None? <==> Worked()
      ensures Worked() ==> !aborted
      ensures failure.Some? ==>
        aborted && failure.value == (if old(aborted) then TransactionAborted else ConnectionLost)
    {
      if aborted {
        failure := Some(TransactionAborted);
      } else if fault.LostAfter? && fault.statements == 0 {
        lost, aborted := true, true;
        failure := Some(ConnectionLost);
      } else {
        if fault.LostAfter? {
          fault := LostAfter(fault.statements - 1, fault.durable);
        }
        failure := None;
      }
    }

    /** COMMIT. In an aborted transaction it rolls back and reports an error. */
    method Commit() returns (ok: bool)
      requires Open()
      modifies this
      ensures Valid() && !inTransaction && (old(lost) ==> lost) && (old(fault).Healthy? ==> !lost)
      ensures ok ==> !old(aborted) && !lost && Tables() == old(Tables())
      ensures !ok ==>
        Tables() == old(undo)
          || (old(fault).LostAfter? && old(fault).durable && lost && !old(aborted) && Tables() == old(Tables()))
      ensures !ok && !lost ==> old(aborted)
    {
      var failure := Send();
      ok := failure.None?;
      inTransaction := false;
      if failure == Some(TransactionAborted)
        || (failure == Some(ConnectionLost) && !(fault.LostAfter? && fault.durable)) {
        Restore(undo);
      }
    }

    method Rollback()
      requires Valid() && inTransaction
      modifies this
      ensures Valid() && !inTransaction && Tables() == old(undo) && lost == old(lost)
    {
      inTransaction := false;
      Restore(undo);
    }

    method Savepoint() returns (r: Answer<()>)
      requires Open() && savepoint.None?
      modifies this
      ensures Continues() && Tables() == old(Tables())
      ensures if Worked() then r == Row(()) && !aborted && savepoint == Some(Tables())
              else r.Failed? && aborted && savepoint.None?
    {
      var failure := Send();
      if failure.Some? {
        return Failed(failure.value);
      }
      savepoint := Some(Tables());
      r := Row(());
    }

    method ReleaseSavepoint() returns (r: Answer<()>)
      requires Open()
      modifies this
      ensures Continues() && Tables() == old(Tables())
      ensures if Worked() then r == Row(()) && !aborted && savepoint.None?
              else r.Failed? && aborted && savepoint == old(savepoint)
    {
      var failure := Send();
      if failure.Some? {
        return Failed(failure.value);
      }
      savepoint := None;
      r := Row(());
    }

    /** The only statement that is accepted in an aborted transaction. */
    method RollbackToSavepoint() returns (r: Answer<()>)
      requires Open() && savepoint.Some?
      modifies this
      ensures Continues() && savepoint == old(savepoint)
      ensures if !lost then r == Row(()) && !aborted && Tables() == old(savepoint).value
              else r.Failed? && aborted
    {
      if lost || (fault.LostAfter? && fault.statements == 0) {
        lost, aborted := true, true;
        return Failed(ConnectionLost);
      }
      if fault.LostAfter? {
        fault := LostAfter(fault.statements - 1, fault.durable);
      }
      Restore(savepoint.value);
      aborted := false;
      r := Row(());
    }

    // ----- Operation outcomes -----

    method TryInsertSyncOperation(userId: Uuid, deviceId: Uuid, opId: Uuid) returns (r: Answer<SyncOperation>)
      requires Open()
      modifies this
      ensures Statement(r.Failed?, false)
      ensures Worked() ==>
        var key := OperationKey(deviceId, opId);
        var row := SyncOperation(deviceId, opId, userId, Processing, None, EmptyObject, now, None);
        if DeviceOwned(old(Tables()), userId, deviceId) && key !in old(syncOps)
        then r == Row(row) && Tables() == old(Tables()).(syncOps := old(syncOps)[key := row])
        else r == NoRows && Tables() == old(Tables())
    {
      var failure := Send();
      if failure.Some? {
        return Failed(failure.value);
      }
      var key := OperationKey(deviceId, opId);
      if !(deviceId in devices && devices[deviceId] == userId) || key in syncOps {
        return NoRows;
      }
      var row := SyncOperation(deviceId, opId, userId, Processing, None, EmptyObject, now, None);
      syncOps := syncOps[key := row];
      r := Row(row);
    }

    method GetSyncOperation(userId: Uuid, deviceId: Uuid, opId: Uuid) returns (r: Answer<SyncOperation>)
      requires Open()
      modifies this
      ensures Statement(r.Failed?, false)
      ensures Worked() ==>
        var key := OperationKey(deviceId, opId);
        && Tables() == old(Tables())
        && r == if key in syncOps && syncOps[key].userId == userId then Row(syncOps[key]) else NoRows
    {
      var failure := Send();
      if failure.Some? {
        return Failed(failure.value);
      }
      var key := OperationKey(deviceId, opId);
      r := if key in syncOps && syncOps[key].userId == userId then Row(syncOps[key]) else NoRows;
    }

    method UpdateSyncOperation(userId: Uuid, deviceId: Uuid, opId: Uuid, status: Status, reason: Option<Reason>,
                               response: StoredResponse, completedAt: Timestamp) returns (r: Answer<SyncOperation>)
      requires Open()
      modifies this
      ensures Statement(r.Failed?, false)
      ensures Worked() ==>
        var key := OperationKey(deviceId, opId);
        if key in old(syncOps) && old(syncOps)[key].userId == userId
        then var row := old(syncOps)[key].(status := status, reason := reason, response := response,
                                           completedAt := Some(completedAt));
             r == Row(row) && Tables() == old(Tables()).(syncOps := old(syncOps)[key := row])
        else r == NoRows && Tables() == old(Tables())
    {
      var failure := Send();
      if failure.Some? {
        return Failed(failure.value);
      }
      var key := OperationKey(deviceId, opId);
      if key !in syncOps || syncOps[key].userId != userId {
        return NoRows;
      }
      var row :=
        syncOps[key].(status := status, reason := reason, response := response, completedAt := Some(completedAt));
      syncOps := syncOps[key := row];
      r := Row(row);
    }

    // ----- Products -----

    method GetProductByID(id: Uuid) returns (r: Answer<Product>)
      requires Open()
      modifies this
      ensures Statement(r.Failed?, false)
      ensures Worked() ==> Tables() == old(Tables()) && r == if id in products then Row(products[id]) else NoRows
    {
      var failure := Send();
      if failure.Some? {
        return Failed(failure.value);
      }
      r := if id in products then Row(products[id]) else NoRows;
    }

    method GetProductForUpdate(userId: Uuid, id: Uuid) returns (r: Answer<Product>)
      requires Open()
      modifies this
      ensures Statement(r.Failed?, false)
      ensures Worked() ==>
        && Tables() == old(Tables())
        && r == if M.ActiveAndOwned(products, userId, id) then Row(products[id]) else NoRows
    {
      var failure := Send();
      if failure.Some? {
        return Failed(failure.value);
      }
      r :=
        if id in products && products[id].userId == userId && products[id].Active() then Row(products[id]) else NoRows;
    }

    method GetActiveProductByBarcode(userId: Uuid, barcode: string) returns (r: Answer<Product>)
      requires Open()
      modifies this
      ensures Statement(r.Failed?, false)
      ensures Worked() ==>
        && Tables() == old(Tables())
        && var owner := ActiveProductByBarcode(products, userId, barcode);
           r == if owner.Some? then Row(owner.value) else NoRows
    {
      var failure := Send();
      if failure.Some? {
        return Failed(failure.value);
      }
      var owners := ActiveOwners(products, userId, barcode);
      if owners == {} {
        return NoRows;
      }
      LeastExists(owners);
      var id :| id in owners && forall other | other in owners :: id <= other;
      r := Row(products[id]);
    }

    method InsertProduct(id: Uuid, userId: Uuid, deviceId: Uuid, fields: Fields) returns (r: Answer<Product>)
      requires Open()
      modifies this
      ensures Statement(r.Failed?, r.Failed? && r.error.Violates?)
      ensures Worked() ==>
        if id in old(products) then r == Failed(Violates(ProductsPkey))
        else if BarcodeTaken(old(products), id, fields.barcode) then r == Failed(Violates(ActiveBarcodeIndex))
        else if !DeviceOwned(old(Tables()), userId, deviceId) then r == Failed(Violates(ProductsDeviceOwner))
        else
          var p := P.NewProduct(id, userId, deviceId, fields, now);
          r == Row(p) && Tables() == old(Tables()).(products := old(products)[id := p])
    {
      var failure := Send();
      if failure.Some? {
        return Failed(failure.value);
      }
      if id in products {
        aborted := true;
        return Failed(Violates(ProductsPkey));
      }
      if BarcodeTaken(products, id, fields.barcode) {
        aborted := true;
        return Failed(Violates(ActiveBarcodeIndex));
      }
      if !DeviceOwned(Tables(), userId, deviceId) {
        aborted := true;
        return Failed(Violates(ProductsDeviceOwner));
      }
      products := products[id := Product(id, userId, fields, 1, now, deviceId, None, now)];
      r := Row(products[id]);
    }

    method UpdateProduct(id: Uuid, userId: Uuid, deviceId: Uuid, fields: Fields, baseVersion: int)
      returns (r: Answer<Product>)
      requires Open()
      modifies this
      ensures Statement(r.Failed?, r.Failed? && r.error.Violates?)
      ensures Worked() ==>
        if !(M.ActiveAndOwned(old(products), userId, id) && old(products)[id].version == baseVersion)
        then r == NoRows && Tables() == old(Tables())
        else if BarcodeTaken(old(products), id, fields.barcode) then r == Failed(Violates(ActiveBarcodeIndex))
        else if !DeviceOwned(old(Tables()), userId, deviceId) then r == Failed(Violates(ProductsDeviceOwner))
        else
          var p := P.Edited(old(products)[id], deviceId, fields, now);
          r == Row(p) && Tables() == old(Tables()).(products := old(products)[id := p])
    {
      var failure := Send();
      if failure.Some? {
        return Failed(failure.value);
      }
      if !(id in products && products[id].userId == userId && products[id].Active()
           && products[id].version == baseVersion) {
        return NoRows;
      }
      if BarcodeTaken(products, id, fields.barcode) {
        aborted := true;
        return Failed(Violates(ActiveBarcodeIndex));
      }
      if !DeviceOwned(Tables(), userId, deviceId) {
        aborted := true;
        return Failed(Violates(ProductsDeviceOwner));
      }
      var p := products[id];
      products :=
        products[id := p.(fields := fields, version := p.version + 1, updatedAt := now, updatedBy := deviceId)];
      r := Row(products[id]);
    }

    method SoftDeleteProduct(id: Uuid, userId: Uuid, deviceId: Uuid, baseVersion: int) returns (r: Answer<Product>)
      requires Open()
      modifies this
      ensures Statement(r.Failed?, r.Failed? && r.error.Violates?)
      ensures Worked() ==>
        if !(M.ActiveAndOwned(old(products), userId, id) && old(products)[id].version >= baseVersion)
        then r == NoRows && Tables() == old(Tables())
        else if !DeviceOwned(old(Tables()), userId, deviceId) then r == Failed(Violates(ProductsDeviceOwner))
        else
          var p := P.Tombstone(old(products)[id], deviceId, now);
          r == Row(p) && Tables() == old(Tables()).(products := old(products)[id := p])
    {
      var failure := Send();
      if failure.Some? {
        return Failed(failure.value);
      }
      if !(id in products && products[id].userId == userId && products[id].Active()
           && products[id].version >= baseVersion) {
        return NoRows;
      }
      if !DeviceOwned(Tables(), userId, deviceId) {
        aborted := true;
        return Failed(Violates(ProductsDeviceOwner));
      }
      var p := products[id];
      products :=
        products[id := p.(deletedAt := Some(now), version := p.version + 1, updatedAt := now, updatedBy := deviceId)];
      r := Row(products[id]);
    }

    // ----- Movements and the balance projection -----

    method GetStockMovementByID(id: Uuid) returns (r: Answer<StockMovement>)
      requires Open()
      modifies this
      ensures Statement(r.Failed?, false)
      ensures Worked() ==>
        && Tables() == old(Tables())
        && var found := FindMovement(movements, id);
           r == if found.Some? then Row(found.value) else NoRows
    {
      var failure := Send();
      if failure.Some? {
        return Failed(failure.value);
      }
      var found := FindMovement(movements, id);
      r := if found.Some? then Row(found.value) else NoRows;
    }

    method GetLatestStocktake(userId: Uuid, productId: Uuid) returns (r: Answer<StockMovement>)
      requires Open()
      modifies this
      ensures Statement(r.Failed?, false)
      ensures Worked() ==>
        && Tables() == old(Tables())
        && var latest := LatestStocktake(movements, userId, productId);
           r == if latest.Some? then Row(latest.value) else NoRows
    {
      var failure := Send();
      if failure.Some? {
        return Failed(failure.value);
      }
      var latest := LatestStocktake(movements, userId, productId);
      r := if latest.Some? then Row(latest.value) else NoRows;
    }

    method GetProductLedgerBalance(userId: Uuid, productId: Uuid) returns (r: Answer<LedgerBalance>)
      requires Open()
      modifies this
      ensures Statement(r.Failed?, false)
      ensures Worked() ==>
        && Tables() == old(Tables())
        && r ==
          Row(LedgerBalance(productId, LedgerQty(movements, userId, productId),
                            LedgerLast(movements, userId, productId)))
    {
      var failure := Send();
      if failure.Some? {
        return Failed(failure.value);
      }
      r := Row(LedgerBalance(productId, LedgerQty(movements, userId, productId),
                             LedgerLast(movements, userId, productId)));
    }

    /** Checks come before the primary key, foreign keys after the row is in. */
    method InsertStockMovement(input: M.AppendInput, delta: int32) returns (r: Answer<StockMovement>)
      requires Open()
      modifies this
      ensures Statement(r.Failed?, r.Failed? && r.error.Violates?)
      ensures Worked() ==>
        var m := M.RowOf(input, delta, now);
        if !M.ActiveAndOwned(old(products), input.userId, input.productId) then r == NoRows && Tables() == old(Tables())
        else if delta == 0 then r == Failed(Violates(MovementsDelta))
        else if input.kind.UnknownKind? then r == Failed(Violates(MovementsKind))
        else if MovementExists(old(movements), input.id) then r == Failed(Violates(MovementsPkey))
        else if !DeviceOwned(old(Tables()), input.userId, input.deviceId) then
          r == Failed(Violates(MovementsDeviceOwner))
        else if !ReversesOwnRow(old(movements) + [m], m) then r == Failed(Violates(MovementsReverses))
        else r == Row(m) && Tables() == old(Tables()).(movements := old(movements) + [m])
    {
      var failure := Send();
      if failure.Some? {
        return Failed(failure.value);
      }
      if !M.ActiveAndOwned(products, input.userId, input.productId) {
        return NoRows;
      }
      if delta == 0 {
        aborted := true;
        return Failed(Violates(MovementsDelta));
      }
      if input.kind.UnknownKind? {
        aborted := true;
        return Failed(Violates(MovementsKind));
      }
      var existing := FindMovement(movements, input.id);
      if existing.Some? {
        aborted := true;
        return Failed(Violates(MovementsPkey));
      }
      if !DeviceOwned(Tables(), input.userId, input.deviceId) {
        aborted := true;
        return Failed(Violates(MovementsDeviceOwner));
      }
      var m := M.RowOf(input, delta, now);
      if !ReversesOwnRow(movements + [m], m) {
        aborted := true;
        return Failed(Violates(MovementsReverses));
      }
      movements := movements + [m];
      r := Row(m);
    }

    /** INSERT ... ON CONFLICT DO UPDATE SET qty = qty + delta. */
    method IncrementProductBalance(userId: Uuid, productId: Uuid, delta: int32, occurredAt: Timestamp)
      returns (r: Answer<ProductBalance>)
      requires Open()
      modifies this
      ensures Statement(r.Failed?, false)
      ensures Worked() ==>
        if productId in old(products) && old(products)[productId].userId == userId
        then
          var before := if productId in old(balances) then Some(old(balances)[productId]) else None;
          var row := Increment(before, delta, occurredAt, now);
          r == Row(row) && Tables() == old(Tables()).(balances := old(balances)[productId := row])
        else r == NoRows && Tables() == old(Tables())
    {
      var failure := Send();
      if failure.Some? {
        return Failed(failure.value);
      }
      if productId !in products || products[productId].userId != userId {
        return NoRows;
      }
      if productId in balances {
        var row := balances[productId];
        var later := row.lastMovementAt.None? || occurredAt > row.lastMovementAt.value;
        var at := if later then Some(occurredAt) else row.lastMovementAt;
        balances := balances[productId := ProductBalance(row.qty + delta, at, now)];
      } else {
        balances := balances[productId := ProductBalance(delta, Some(occurredAt), now)];
      }
      r := Row(balances[productId]);
    }

    /** INSERT ... ON CONFLICT DO UPDATE SET qty = the given value. */
    method UpsertProductBalance(userId: Uuid, productId: Uuid, qty: int, lastMovementAt: Option<Timestamp>)
      returns (r: Answer<ProductBalance>)
      requires Open()
      modifies this
      ensures Statement(r.Failed?, false)
      ensures Worked() ==>
        if productId in old(products) && old(products)[productId].userId == userId
        then r == Row(ProductBalance(qty, lastMovementAt, now)) &&
             Tables() ==
               old(Tables()).(balances := old(balances)[productId := ProductBalance(qty, lastMovementAt, now)])
        else r == NoRows && Tables() == old(Tables())
    {
      var failure := Send();
      if failure.Some? {
        return Failed(failure.value);
      }
      if productId !in products || products[productId].userId != userId {
        return NoRows;
      }
      balances := balances[productId := ProductBalance(qty, lastMovementAt, now)];
      r := Row(balances[productId]);
    }

    // ----- The change log -----

    method AllocateChangeSequence() returns (r: Answer<nat>)
      requires Open()
      modifies this
      ensures Statement(r.Failed?, false)
      ensures Worked() ==> r == Row(old(lastSeq) + 1) && Tables() == old(Tables()).(lastSeq := old(lastSeq) + 1)
    {
      var failure := Send();
      if failure.Some? {
        return Failed(failure.value);
      }
      lastSeq := lastSeq + 1;
      r := Row(lastSeq);
    }

    method InsertChangeLog(cursor: nat, userId: Uuid, entity: Entity, entityId: Uuid, op: ChangeOp,
                           payload: ChangePayload, originDeviceId: Uuid) returns (r: Answer<ChangeLogEntry>)
      requires Open()
      modifies this
      ensures Statement(r.Failed?, false)
      ensures Worked() ==>
        if DeviceOwned(old(Tables()), userId, originDeviceId)
        then
          var e := ChangeLogEntry(cursor, userId, entity, entityId, op, payload, originDeviceId, now);
          r == Row(e) && Tables() == old(Tables()).(changeLog := old(changeLog) + [e])
        else r == NoRows && Tables() == old(Tables())
    {
      var failure := Send();
      if failure.Some? {
        return Failed(failure.value);
      }
      if !(originDeviceId in devices && devices[originDeviceId] == userId) {
        return NoRows;
      }
      var e := ChangeLogEntry(cursor, userId, entity, entityId, op, payload, originDeviceId, now);
      changeLog := changeLog + [e];
      r := Row(e);
    }

    /** Allocates the next cursor and inserts the event in one transaction. */
    method AppendChangeLog(userId: Uuid, entity: Entity, entityId: Uuid, op: ChangeOp,
                           payload: ChangePayload, originDeviceId: Uuid) returns (r: Answer<ChangeLogEntry>)
      requires Open()
      modifies this
      ensures Continues() && savepoint == old(savepoint) && (old(aborted) ==> aborted)
      ensures Worked() ==>
        var e := ChangeLogEntry(old(lastSeq) + 1, userId, entity, entityId, op, payload, originDeviceId, now);
        && !aborted
        && if DeviceOwned(old(Tables()), userId, originDeviceId)
           then
             r == Row(e)
             && Tables() == old(Tables()).(lastSeq := old(lastSeq) + 1, changeLog := old(changeLog) + [e])
           else r == NoRows
    {
      var next := AllocateChangeSequence();
      if !next.Row? {
        return if next.Failed? then Failed(next.error) else NoRows;
      }
      r := InsertChangeLog(next.value, userId, entity, entityId, op, payload, originDeviceId);
    }

    /** SELECT ... WHERE user_id = ... AND seq > ... ORDER BY seq LIMIT ... */
    method ListChangeLog(userId: Uuid, afterSeq: int, limit: nat) returns (r: Answer<seq<ChangeLogEntry>>)
      requires Open() && limit > 0
      modifies this
      ensures Statement(r.Failed?, false)
      ensures Worked() ==>
        var all := UserLog(changeLog, userId, afterSeq);
        Tables() == old(Tables()) && r == Row(if |all| > limit then all[..limit] else all)
    {
      var failure := Send();
      if failure.Some? {
        return Failed(failure.value);
      }
      var all := UserLog(changeLog, userId, afterSeq);
      r := Row(if |all| > limit then all[..limit] else all);
    }

    method GetDevice(userId: Uuid, deviceId: Uuid) returns (r: Answer<Uuid>)
      requires Open()
      modifies this
      ensures Statement(r.Failed?, false)
      ensures Worked() ==>
        Tables() == old(Tables()) && r == if DeviceOwned(Tables(), userId, deviceId) then Row(deviceId) else NoRows
    {
      var failure := Send();
      if failure.Some? {
        return Failed(failure.value);
      }
      r := if deviceId in devices && devices[deviceId] == userId then Row(deviceId) else NoRows;
    }

    // ----- Snapshot reads -----

    /** The rows, and whether there were more than the bound. One row more than
        the bound is requested. */
    method ListSnapshotProducts(userId: Uuid, maxRows: nat) returns (r: Answer<(seq<Product>, bool)>)
      requires Open() && maxRows > 0
      modifies this
      ensures Statement(r.Failed?, false)
      ensures Worked() ==>
        && Tables() == old(Tables()) && r.Row?
        && (r.value.1 <==> |ProductsOf(Tables(), userId)| > maxRows)
        && (!r.value.1 ==> AccountProducts(Tables(), userId, r.value.0))
    {
      var failure := Send();
      if failure.Some? {
        return Failed(failure.value);
      }
      var mine := ProductsOf(Tables(), userId);
      var ids := SortIds(mine);
      ByIds(ids, mine);
      var rows := [];
      for i := 0 to |ids|
        modifies {}
        invariant |rows| == i
        invariant forall k | 0 <= k < i :: ids[k] in products && rows[k] == products[ids[k]] && rows[k].id == ids[k]
      {
        rows := rows + [products[ids[i]]];
      }
      forall id | id in mine ensures exists k | 0 <= k < |rows| :: rows[k].id == id {
        var k :| 0 <= k < |ids| && ids[k] == id;
        assert rows[k].id == id;
      }
      r := Row(if |rows| > maxRows then (rows[..maxRows], true) else (rows, false));
    }

    method ListSnapshotMovements(userId: Uuid, maxRows: nat) returns (r: Answer<(seq<StockMovement>, bool)>)
      requires Open() && maxRows > 0
      modifies this
      ensures Statement(r.Failed?, false)
      ensures Worked() ==>
        var all := InOrder(AccountMovements(movements, userId));
        Tables() == old(Tables()) && r == Row(if |all| > maxRows then (all[..maxRows], true) else (all, false))
    {
      var failure := Send();
      if failure.Some? {
        return Failed(failure.value);
      }
      var all := InOrder(AccountMovements(movements, userId));
      r := Row(if |all| > maxRows then (all[..maxRows], true) else (all, false));
    }

    method ListSnapshotBalances(userId: Uuid, maxRows: nat) returns (r: Answer<(seq<LedgerBalance>, bool)>)
      requires Open() && maxRows > 0
      modifies this
      ensures Continues() && savepoint == old(savepoint) && (!Worked() ==> r.Failed? && aborted)
      ensures Tables() == old(Tables())
      ensures Worked() ==>
        && !aborted && r.Row?
        && (r.value.1 <==> |ProductsOf(Tables(), userId)| > maxRows)
        && (!r.value.1 ==> LedgerBalances(Tables(), userId, r.value.0))
    {
      var all := ListLedgerBalances(userId);
      if !all.Row? {
        return if all.Failed? then Failed(all.error) else NoRows;
      }
      var rows := all.value;
      r := Row(if |rows| > maxRows then (rows[..maxRows], true) else (rows, false));
    }

    method CurrentChangeSequence() returns (r: Answer<nat>)
      requires Open()
      modifies this
      ensures Statement(r.Failed?, false)
      ensures Worked() ==> Tables() == old(Tables()) && r == Row(lastSeq)
    {
      var failure := Send();
      if failure.Some? {
        return Failed(failure.value);
      }
      r := Row(lastSeq);
    }

    method CurrentDatabaseTime() returns (r: Answer<Timestamp>)
      requires Open()
      modifies this
      ensures Statement(r.Failed?, false)
      ensures Worked() ==> Tables() == old(Tables()) && r == Row(now)
    {
      var failure := Send();
      if failure.Some? {
        return Failed(failure.value);
      }
      r := Row(now);
    }

    // ----- Projection maintenance -----

    method ListLedgerBalances(userId: Uuid) returns (r: Answer<seq<LedgerBalance>>)
      requires Open()
      modifies this
      ensures Statement(r.Failed?, false)
      ensures Worked() ==>
        && Tables() == old(Tables()) && r.Row? && LedgerBalances(Tables(), userId, r.value)
        && |r.value| == |ProductsOf(Tables(), userId)|
    {
      var failure := Send();
      if failure.Some? {
        return Failed(failure.value);
      }
      var mine := ProductsOf(Tables(), userId);
      var ids := SortIds(mine);
      var rows := [];
      for i := 0 to |ids|
        modifies {}
        invariant |rows| == i
        invariant forall k | 0 <= k < i ::
          rows[k] == LedgerBalance(ids[k], LedgerQty(movements, userId, ids[k]), LedgerLast(movements, userId, ids[k]))
      {
        rows :=
          rows + [LedgerBalance(ids[i], LedgerQty(movements, userId, ids[i]), LedgerLast(movements, userId, ids[i]))];
      }
      ByIds(ids, mine);
      forall id | id in products && products[id].userId == userId
        ensures exists k | 0 <= k < |rows| :: rows[k].productId == id
      {
        assert id in mine;
        var k :| 0 <= k < |ids| && ids[k] == id;
        assert rows[k].productId == id;
      }
      r := Row(rows);
    }

    method ListProductBalances(userId: Uuid) returns (r: Answer<seq<ProjectedBalance>>)
      requires Open()
      modifies this
      ensures Statement(r.Failed?, false)
      ensures Worked() ==> Tables() == old(Tables()) && r.Row? && ProjectedBalances(Tables(), userId, r.value)
    {
      var failure := Send();
      if failure.Some? {
        return Failed(failure.value);
      }
      var rows := JoinBalances(Tables(), userId);
      r := Row(rows);
    }

    /** INSERT ... SELECT of every recomputed balance ... ON CONFLICT DO UPDATE. */
    method RebuildProductBalances(userId: Uuid) returns (r: Answer<()>)
      requires Open()
      modifies this
      ensures Statement(r.Failed?, false)
      ensures Worked() ==>
        r == Row(()) && Tables() == WithBalances(old(Tables()), RecomputedBalances(old(Tables()), userId, now))
    {
      var failure := Send();
      if failure.Some? {
        return Failed(failure.value);
      }
      var rebuilt := map id | id in ProductsOf(Tables(), userId) ::
        ProductBalance(LedgerQty(movements, userId, id), LedgerLast(movements, userId, id), now);
      assert rebuilt == RecomputedBalances(Tables(), userId, now);
      balances := balances + rebuilt;
      r := Row(());
    }
  }
}
