/** The life of one product over whole runs: its versions, its barcode, and the
    tombstone that beats every concurrent edit. */
module ProductLife {
  import opened Prelude
  import opened Schema
  import opened SyncPolicy
  import opened Invariants
  import opened Runs
  import E = Effects
  import M = MovementPolicy

  // ----- Tombstones absorb -----

  /** The ledger rows of one product, in append order. */
  function RowsOf(ms: seq<StockMovement>, productId: Uuid): seq<StockMovement> {
    if ms == [] then []
    else RowsOf(ms[..|ms| - 1], productId) + (if ms[|ms| - 1].productId == productId then [ms[|ms| - 1]] else [])
  }

  /** Row, balance, ledger and log history of the product are the same. */
  ghost predicate Untouched(t: Tables, next: Tables, id: Uuid) {
    && id in t.products && id in next.products && next.products[id] == t.products[id]
    && (id in t.balances <==> id in next.balances)
    && (id in t.balances ==> next.balances[id] == t.balances[id])
    && RowsOf(next.movements, id) == RowsOf(t.movements, id)
    && History(next.changeLog, id) == History(t.changeLog, id)
  }

  lemma MovementElsewhere(t: Tables, who: Identity, opId: Uuid, d: Decision, clock: Clock, id: Uuid)
    requires d.WriteMovement? && d.movement.productId != id && id in t.products
    ensures Untouched(t, Complete(t, who, opId, d, clock), id)
  {
    assert (t.movements + [d.movement])[..|t.movements|] == t.movements;
    AppendEntry(t.changeLog, EntryOf(who, d, t.lastSeq + 1, clock.transaction), id);
  }

  lemma ProductElsewhere(t: Tables, who: Identity, opId: Uuid, d: Decision, clock: Clock, id: Uuid)
    requires d.WriteProduct? && d.product.id != id && id in t.products
    ensures Untouched(t, Complete(t, who, opId, d, clock), id)
  {
    AppendEntry(t.changeLog, EntryOf(who, d, t.lastSeq + 1, clock.transaction), id);
  }

  lemma TombstoneStep(t: Tables, d: Delivery, id: Uuid)
    requires Keyed(t) && id in t.products && !t.products[id].Active()
    ensures Untouched(t, Deliver(t, d), id)
  {
    var decision := DeliverCases(t, d);
    match decision
    case WriteMovement(_, _) => MovementElsewhere(t, d.who, d.op.opId, decision, d.clock, id);
    case WriteProduct(_, _) => ProductElsewhere(t, d.who, d.op.opId, decision, d.clock, id);
    case _ =>
  }

  /** No run of operations resurrects or touches a tombstoned product. */
  lemma {:induction false} TombstonesAbsorb(t: Tables, ds: seq<Delivery>, id: Uuid)
    requires Valid(t) && id in t.products && !t.products[id].Active()
    ensures Untouched(t, Run(t, ds), id)
  {
    if ds != [] {
      var front := ds[..|ds| - 1];
      TombstonesAbsorb(t, front, id);
      RunValid(t, front);
      TombstoneStep(Run(t, front), ds[|ds| - 1], id);
    }
  }

  // ----- Delete wins -----

  lemma VersionStep(t: Tables, d: Delivery, id: Uuid)
    requires Keyed(t) && id in t.products
    ensures var next := Deliver(t, d);
      id in next.products && next.products[id].userId == t.products[id].userId
        && next.products[id].version >= t.products[id].version
  {
    var decision := DeliverCases(t, d);
  }

  lemma {:induction false} VersionsGrow(t: Tables, ds: seq<Delivery>, id: Uuid)
    requires Valid(t) && id in t.products
    ensures var next := Run(t, ds);
      id in next.products && next.products[id].userId == t.products[id].userId
        && next.products[id].version >= t.products[id].version
  {
    if ds != [] {
      var front := ds[..|ds| - 1];
      VersionsGrow(t, front, id);
      RunValid(t, front);
      VersionStep(Run(t, front), ds[|ds| - 1], id);
    }
  }

  /** A delete sent by a device of the owner, based on a version the product
      already has in `t`. */
  predicate DeletesKnownVersion(t: Tables, d: Delivery, id: Uuid) {
    && id in t.products
    && d.op.payload.DeleteProduct? && d.op.payload.id == id && ValidOperation(d.op)
    && d.op.baseVersion.value <= t.products[id].version
    && d.who.userId == t.products[id].userId && NIL_UUID !in {d.who.userId, d.who.deviceId}
    && DeviceOwned(t, d.who.userId, d.who.deviceId)
    && !d.fate.Dropped?
  }

  lemma DeleteStep(t: Tables, d: Delivery, id: Uuid)
    requires Keyed(t) && DeletesKnownVersion(t, d, id) && d.Key() !in t.syncOps
    ensures id in Deliver(t, d).products && !Deliver(t, d).products[id].Active()
  {
    if !t.products[id].Active() {
      TombstoneStep(t, d, id);
    }
  }

  /** Edits, movements and deletes in any interleaving: once such a delete is
      among the deliveries under a key of its own, the run ends in a tombstone,
      whether the edits came before it or after it. */
  lemma DeleteWins(t: Tables, ds: seq<Delivery>, i: nat, id: Uuid)
    requires Valid(t) && i < |ds| && DeletesKnownVersion(t, ds[i], id)
    requires ds[i].Key() !in t.syncOps && forall j | 0 <= j < i :: ds[j].Key() != ds[i].Key()
    ensures id in Run(t, ds).products && !Run(t, ds).products[id].Active()
  {
    var before := Run(t, ds[..i]);
    RunSplit(t, ds, i);
    RunValid(t, ds[..i]);
    VersionsGrow(t, ds[..i], id);
    KeyStillFree(t, ds, i);
    DeleteStep(before, ds[i], id);
    TombstonesAbsorb(Deliver(before, ds[i]), ds[i + 1..], id);
  }

  // ----- Versions -----

  lemma {:induction false} HistoryPrefix(log: seq<ChangeLogEntry>, n: nat, id: Uuid)
    requires n <= |log|
    ensures History(log[..n], id) <= History(log, id)
  {
    if n == |log| {
      assert log[..n] == log;
    } else {
      HistoryPrefix(log[..|log| - 1], n, id);
      assert log[..|log| - 1][..n] == log[..n];
    }
  }

  /** The version in a product's log entry is the number of that product's
      entries so far: the first carries 1, the next 2, and so on. */
  lemma EntryInHistory(t: Tables, i: nat)
    requires Valid(t) && i < |t.changeLog| && t.changeLog[i].payload.ProductPayload?
    ensures var v := t.changeLog[i].payload.product; var h := History(t.changeLog, v.id);
      && 1 <= v.version <= |h| && h[v.version - 1] == v
      && v.version == |History(t.changeLog[..i + 1], v.id)| == |History(t.changeLog[..i], v.id)| + 1
  {
    var v := t.changeLog[i].payload.product;
    assert Chained(t, v.id);
    assert t.changeLog[..i + 1] == t.changeLog[..i] + [t.changeLog[i]];
    AppendEntry(t.changeLog[..i], t.changeLog[i], v.id);
    HistoryPrefix(t.changeLog, i + 1, v.id);
    var h := History(t.changeLog[..i + 1], v.id);
    assert h[|h| - 1] == History(t.changeLog, v.id)[|h| - 1];
  }

  /** Entries of a product ascend in version, and only its last can be a
      delete. */
  lemma EntriesAscend(t: Tables, i: nat, j: nat)
    requires Valid(t) && i < j < |t.changeLog|
    requires t.changeLog[i].payload.ProductPayload? && t.changeLog[j].payload.ProductPayload?
    requires t.changeLog[i].payload.product.id == t.changeLog[j].payload.product.id
    ensures t.changeLog[i].payload.product.version < t.changeLog[j].payload.product.version
    ensures t.changeLog[i].op.Upsert?
  {
    var id := t.changeLog[i].payload.product.id;
    EntryInHistory(t, i);
    EntryInHistory(t, j);
    HistoryPrefix(t.changeLog[..j], i + 1, id);
    assert t.changeLog[..j][..i + 1] == t.changeLog[..i + 1];
    NotLastIsActive(t, i);
  }

  lemma NotLastIsActive(t: Tables, i: nat)
    requires VersionsChained(t) && LogNumbered(t) && i < |t.changeLog| && t.changeLog[i].payload.ProductPayload?
    requires var v := t.changeLog[i].payload.product; var h := History(t.changeLog, v.id);
      1 <= v.version < |h| && h[v.version - 1] == v
    ensures t.changeLog[i].op.Upsert?
  {
    assert Chained(t, t.changeLog[i].payload.product.id);
    assert EntrySound(t.changeLog[i], i + 1);
  }

  // ----- Edits and their base versions -----

  /** The version that an upsert claims to have seen: none for a create. */
  function BaseOf(op: Operation): int {
    if op.baseVersion.Some? then op.baseVersion.value else 0
  }

  /** The delivery is the one that applies its operation: the log grows. */
  ghost predicate AppliesNow(t: Tables, d: Delivery) {
    Deliver(t, d).changeLog != t.changeLog
  }

  /** One more log entry, for this version of the product. */
  ghost predicate LogsVersion(t: Tables, next: Tables, id: Uuid, version: int) {
    && |next.changeLog| == |t.changeLog| + 1 && next.changeLog[..|t.changeLog|] == t.changeLog
    && var payload := next.changeLog[|t.changeLog|].payload;
       payload.ProductPayload? && payload.product.id == id && payload.product.version == version
  }

  /** The version that the product has, none before it is created. */
  function VersionIn(t: Tables, id: Uuid): int {
    if id in t.products then t.products[id].version else 0
  }

  /** The two ways in which the log can grow by an upsert. */
  lemma NewUpsert(t: Tables, d: Delivery)
    requires Valid(t) && d.op.payload.UpsertProduct? && AppliesNow(t, d)
    ensures d.op.baseVersion == None || d.op.baseVersion.value >= 0
    ensures Deliver(t, d) == Process(t, d.who, d.op, d.clock).tables
    ensures var id, sent := d.op.payload.id, d.op.payload.fields;
      if id in t.products then
        && E.OnShelf(t, d.who, id) && d.op.baseVersion == Some(t.products[id].version)
        && E.Edited(t, d.who, d.op, d.clock, id, sent)
      else BaseOf(d.op) == 0 && E.Created(t, d.who, d.op, d.clock, id, sent)
  {
    var decision := DeliverCases(t, d);
    assert E.Fresh(t, d.who, d.op);
    E.UpsertOutcome(t, d.who, d.op, d.clock);
  }

  /** An upsert applies only to the very version that it claims: an edit names
      the current version of an active product of the account, a create none.
      The row and the log entry then carry the next version. */
  lemma EditMatchesBase(t: Tables, d: Delivery)
    requires Valid(t) && d.op.payload.UpsertProduct? && AppliesNow(t, d)
    ensures var id, next := d.op.payload.id, Deliver(t, d);
      && BaseOf(d.op) == VersionIn(t, id) && VersionIn(next, id) == BaseOf(d.op) + 1
      && (id in t.products ==>
            && d.op.baseVersion == Some(t.products[id].version)
            && t.products[id].userId == d.who.userId && t.products[id].deletedAt == None)
      && LogsVersion(t, next, id, BaseOf(d.op) + 1)
  {
    NewUpsert(t, d);
  }

  lemma LaterBase(t: Tables, d: Delivery, between: seq<Delivery>, e: Delivery)
    requires Valid(t) && d.op.payload.UpsertProduct? && AppliesNow(t, d)
    requires e.op.payload.UpsertProduct? && e.op.payload.id == d.op.payload.id
    requires AppliesNow(Run(Deliver(t, d), between), e)
    ensures BaseOf(d.op) < BaseOf(e.op)
  {
    var next := Deliver(t, d);
    ProcessKeepsValid(t, d.who, d.op, d.clock);
    RunValid(next, between);
    EditMatchesBase(t, d);
    EditMatchesBase(Run(next, between), e);
    VersionsGrow(next, between, d.op.payload.id);
  }

  /** Over any run: of two applied upserts of one product the later one was
      based on a greater version, so no base version is edited twice, and each
      is logged as its base version plus one. */
  lemma OneEditPerBase(t: Tables, ds: seq<Delivery>, i: nat, j: nat)
    requires Valid(t) && i < j < |ds|
    requires ds[i].op.payload.UpsertProduct? && ds[j].op.payload.UpsertProduct?
    requires ds[i].op.payload.id == ds[j].op.payload.id
    requires AppliesNow(Run(t, ds[..i]), ds[i]) && AppliesNow(Run(t, ds[..j]), ds[j])
    ensures BaseOf(ds[i].op) < BaseOf(ds[j].op)
    ensures LogsVersion(Run(t, ds[..i]), Deliver(Run(t, ds[..i]), ds[i]), ds[i].op.payload.id, BaseOf(ds[i].op) + 1)
    ensures LogsVersion(Run(t, ds[..j]), Deliver(Run(t, ds[..j]), ds[j]), ds[j].op.payload.id, BaseOf(ds[j].op) + 1)
  {
    RunValid(t, ds[..i]);
    RunValid(t, ds[..j]);
    EditMatchesBase(Run(t, ds[..i]), ds[i]);
    EditMatchesBase(Run(t, ds[..j]), ds[j]);
    assert ds[..j][..i] == ds[..i] && ds[..j][i] == ds[i];
    RunSplit(t, ds[..j], i);
    LaterBase(Run(t, ds[..i]), ds[i], ds[..j][i + 1..], ds[j]);
  }

  // ----- Barcodes -----

  /** The upsert would create the product, or edit its current version. */
  predicate WouldWrite(t: Tables, who: Identity, baseVersion: Option<int>, id: Uuid) {
    if id in t.products then M.ActiveAndOwned(t.products, who.userId, id) && baseVersion == Some(t.products[id].version)
    else baseVersion.None? || baseVersion.value == 0
  }

  /** An upsert that would otherwise be written is rejected exactly when its
      barcode belongs to another active product of any account. The rejection
      stores nothing but the outcome, and it shows the owner of the barcode
      exactly when that owner is a product of the same account. */
  lemma BarcodeConflictExact(t: Tables, who: Identity, op: Operation, clock: Clock)
    requires Keyed(t) && BarcodesUnique(t) && CanReserve(t, who, op.opId)
    requires ValidOperation(op) && op.payload.UpsertProduct? && NIL_UUID !in {who.userId, who.deviceId}
    requires WouldWrite(t, who, op.baseVersion, op.payload.id)
    ensures var barcode := NormalizeOptional(op.payload.fields.barcode);
      var d := Decide(t, who, op, clock.transaction);
      var taken := BarcodeTaken(t.products, op.payload.id, barcode);
      && (if taken then d.Reject? && d.reason.BarcodeConflict? else d.WriteProduct?)
      && (taken ==>
            && Complete(t, who, op.opId, d, clock).(syncOps := t.syncOps) == t
            && exists q | q in t.products ::
                 && q != op.payload.id && t.products[q].Active() && t.products[q].fields.barcode == barcode
                 && (t.products[q].userId == who.userId ==> d.serverState == Some(ViewProduct(t.products[q])))
                 && (t.products[q].userId != who.userId ==> d.serverState == None))
  {
    var barcode := NormalizeOptional(op.payload.fields.barcode);
    if BarcodeTaken(t.products, op.payload.id, barcode) {
      var q :| q in t.products && q != op.payload.id && t.products[q].Active()
        && t.products[q].fields.barcode == barcode;
      var owners := ActiveOwners(t.products, who.userId, barcode.value);
      forall o | o in owners ensures o == q {
      }
      if t.products[q].userId == who.userId {
        assert q in owners;
      }
      var d := Decide(t, who, op, clock.transaction);
      assert d.Reject? && d.reason.BarcodeConflict?;
      assert Complete(t, who, op.opId, d, clock).(syncOps := t.syncOps) == t;
    }
  }
}
