/** Incremental replication: a client that installs a snapshot and then applies
    its account's log entries reaches exactly the server's current state, even
    when it starts again from an older cursor. The replica follows the rules of
    the client's change applier for rows without pending local intent: a stale
    version is skipped, a tombstone is final, a known movement must match. */
module Replication {
  import opened Prelude
  import opened Schema
  import opened Ledger
  import opened ChangeFeed
  import opened SyncPolicy
  import opened Invariants
  import opened Runs

  datatype ReplicaBalance = ReplicaBalance(qty: int, lastMovementAt: Option<Timestamp>)

  datatype Replica = Replica(
    products: map<Uuid, ProductView>,
    movements: map<Uuid, MovementView>,
    balances: map<Uuid, ReplicaBalance>)

  datatype ApplyError =
    | IncompleteProduct | ConflictingProduct | BarcodeInUse
    | InvalidMovement | UnknownProduct | UnknownReversal | ConflictingMovement | InvalidPage

  // ----- The client's applier -----

  ghost predicate BarcodeInUseBy(r: Replica, id: Uuid, barcode: Option<string>) {
    barcode.Some? &&
    exists q | q in r.products :: q != id && r.products[q].deletedAt.None? && r.products[q].fields.barcode == barcode
  }

  function Accumulate(b: ReplicaBalance, m: MovementView): ReplicaBalance {
    ReplicaBalance(b.qty + m.delta, Later(b.lastMovementAt, m.occurredAt))
  }

  /** The balance derived from the local rows when a product has none stored. */
  ghost function DeriveBalance(movements: map<Uuid, MovementView>, productId: Uuid): ReplicaBalance
    decreases |movements|
  {
    if movements == map[] then ReplicaBalance(0, None)
    else
      var id :| id in movements;
      var others := movements - {id};
      assert others.Keys < movements.Keys;
      var rest := DeriveBalance(others, productId);
      if movements[id].productId == productId then Accumulate(rest, movements[id]) else rest
  }

  ghost function PutProduct(r: Replica, v: ProductView): Replica {
    r.(products := r.products[v.id := v],
       balances := if v.id in r.balances then r.balances else r.balances[v.id := DeriveBalance(r.movements, v.id)])
  }

  ghost function ApplyProduct(r: Replica, v: ProductView): Result<Replica, ApplyError> {
    if !SoundProductView(v) then Err(IncompleteProduct)
    else if v.id in r.products && SkipsProduct(r.products[v.id], v) then Ok(r)
    else if v.id in r.products && !Overrides(r.products[v.id], v) && v.version == r.products[v.id].version then
      Err(ConflictingProduct)
    else if v.deletedAt.None? && BarcodeInUseBy(r, v.id, v.fields.barcode) then Err(BarcodeInUse)
    else Ok(PutProduct(r, v))
  }

  /** A tombstone outranks an active row whatever the versions. */
  predicate Overrides(existing: ProductView, v: ProductView) {
    existing.deletedAt.None? && v.deletedAt.Some?
  }

  predicate SkipsProduct(existing: ProductView, v: ProductView) {
    || (existing.deletedAt.Some? && v.deletedAt.None?)
    || (!Overrides(existing, v) && v.version < existing.version)
    || (!Overrides(existing, v) && v == existing)
  }

  function ApplyMovement(r: Replica, v: MovementView): Result<Replica, ApplyError> {
    if v.productId !in r.products then Err(UnknownProduct)
    else if !SoundMovementView(v) then Err(ApplyError.InvalidMovement)
    else if v.reversesId.Some? &&
            (v.reversesId.value !in r.movements || r.movements[v.reversesId.value].productId != v.productId)
    then Err(UnknownReversal)
    else if v.id in r.movements then
      if r.movements[v.id] == v then Ok(r) else Err(ConflictingMovement)
    else
      var balance := if v.productId in r.balances then r.balances[v.productId] else ReplicaBalance(0, None);
      Ok(r.(movements := r.movements[v.id := v], balances := r.balances[v.productId := Accumulate(balance, v)]))
  }

  ghost function ApplyEntry(r: Replica, e: ChangeLogEntry): Result<Replica, ApplyError> {
    match e.payload
    case ProductPayload(v) => ApplyProduct(r, v)
    case MovementPayload(v, _) => ApplyMovement(r, v)
  }

  ghost function ApplyAll(r: Replica, es: seq<ChangeLogEntry>): Result<Replica, ApplyError> {
    if es == [] then Ok(r)
    else
      match ApplyAll(r, es[..|es| - 1])
      case Err(e) => Err(e)
      case Ok(before) => ApplyEntry(before, es[|es| - 1])
  }

  // ----- The server's account view: what a snapshot installs -----

  function MovementRows(ms: seq<StockMovement>, userId: Uuid): map<Uuid, MovementView> {
    if ms == [] then map[]
    else
      var m := ms[|ms| - 1];
      var before := MovementRows(ms[..|ms| - 1], userId);
      if m.userId == userId then before[m.id := ViewMovement(m)] else before
  }

  function View(t: Tables, userId: Uuid): Replica {
    Replica(
      map id | id in t.products && t.products[id].userId == userId :: ViewProduct(t.products[id]),
      MovementRows(t.movements, userId),
      map id | id in t.products && t.products[id].userId == userId ::
        ReplicaBalance(LedgerQty(t.movements, userId, id), LedgerLast(t.movements, userId, id)))
  }

  // ----- The same, column by column -----

  predicate SameProduct(v: ProductView, p: Product) {
    && v.id == p.id && v.version == p.version && v.createdAt == p.createdAt && v.deletedAt == p.deletedAt
    && v.updatedAt == p.updatedAt && v.updatedBy == p.updatedBy
    && v.fields.barcode == p.fields.barcode && v.fields.sku == p.fields.sku && v.fields.name == p.fields.name
    && v.fields.description == p.fields.description && v.fields.unit == p.fields.unit
    && v.fields.category == p.fields.category && v.fields.minStock == p.fields.minStock
  }

  predicate SameMovement(v: MovementView, m: StockMovement) {
    && v.id == m.id && v.productId == m.productId && v.delta == m.delta && v.kind == m.kind && v.note == m.note
    && v.occurredAt == m.occurredAt && v.rawOccurredAt == m.rawOccurredAt && v.clockOffsetMs == m.clockOffsetMs
    && v.countedQty == m.countedQty && v.reversesId == m.reversesId && v.deviceId == m.deviceId
    && v.serverCreatedAt == m.serverCreatedAt
  }

  /** The replica holds every product row, every ledger row and every stored
      balance of the account, with all their columns, and no others. */
  ghost predicate HoldsAccount(r: Replica, t: Tables, userId: Uuid) {
    && (forall id :: id in r.products <==> id in t.products && t.products[id].userId == userId)
    && (forall id | id in r.products :: SameProduct(r.products[id], t.products[id]))
    && (forall id :: id in r.movements <==> OwnMovement(t, userId, id))
    && (forall i | 0 <= i < |t.movements| && t.movements[i].userId == userId ::
          t.movements[i].id in r.movements && SameMovement(r.movements[t.movements[i].id], t.movements[i]))
    && (forall id :: id in r.balances <==> id in r.products)
    && (forall id | id in r.balances ::
          && id in t.balances && r.balances[id].qty == t.balances[id].qty
          && r.balances[id].lastMovementAt == t.balances[id].lastMovementAt)
  }

  ghost predicate OwnMovement(t: Tables, userId: Uuid, id: Uuid) {
    exists i | 0 <= i < |t.movements| :: t.movements[i].userId == userId && t.movements[i].id == id
  }

  lemma ViewHoldsMovements(t: Tables, userId: Uuid)
    requires LedgerSound(t)
    ensures forall id :: id in View(t, userId).movements <==> OwnMovement(t, userId, id)
    ensures forall i | 0 <= i < |t.movements| && t.movements[i].userId == userId ::
      && t.movements[i].id in View(t, userId).movements
      && SameMovement(View(t, userId).movements[t.movements[i].id], t.movements[i])
  {
    var rows := MovementRows(t.movements, userId);
    forall i | 0 <= i < |t.movements| && t.movements[i].userId == userId
      ensures t.movements[i].id in rows && SameMovement(rows[t.movements[i].id], t.movements[i])
    {
      RowsContain(t.movements, userId, i);
    }
    forall id: Uuid ensures id in rows <==> OwnMovement(t, userId, id) {
      if id in rows {
        RowsOnly(t.movements, userId, id);
      }
    }
  }

  /** Such a replica is the view, and there is no other. */
  lemma ViewHoldsAccount(t: Tables, userId: Uuid)
    requires LedgerSound(t) && ProjectionExact(t) && Keyed(t)
    ensures HoldsAccount(View(t, userId), t, userId)
  {
    ViewHoldsMovements(t, userId);
    ViewHoldsProducts(t, userId);
    ViewHoldsBalances(t, userId);
  }

  lemma ViewHoldsProducts(t: Tables, userId: Uuid)
    ensures var rows := View(t, userId).products;
      && (forall id :: id in rows <==> id in t.products && t.products[id].userId == userId)
      && (forall id | id in rows :: SameProduct(rows[id], t.products[id]))
  {
  }

  lemma ViewHoldsBalances(t: Tables, userId: Uuid)
    requires ProjectionExact(t)
    ensures var rows := View(t, userId).balances;
      && (forall id :: id in rows <==> id in View(t, userId).products)
      && (forall id | id in rows ::
            && id in t.balances && rows[id].qty == t.balances[id].qty
            && rows[id].lastMovementAt == t.balances[id].lastMovementAt)
  {
  }

  lemma HeldMovements(r: Replica, s: Replica, t: Tables, userId: Uuid)
    requires HoldsAccount(r, t, userId) && HoldsAccount(s, t, userId)
    ensures r.movements == s.movements
  {
    forall id | id in r.movements ensures id in s.movements && r.movements[id] == s.movements[id] {
      var i :| 0 <= i < |t.movements| && t.movements[i].userId == userId && t.movements[i].id == id;
    }
  }

  lemma HeldProducts(r: Replica, s: Replica, t: Tables, userId: Uuid)
    requires HoldsAccount(r, t, userId) && HoldsAccount(s, t, userId)
    ensures r.products == s.products
  {
  }

  lemma HoldsOnlyView(r: Replica, t: Tables, userId: Uuid)
    requires LedgerSound(t) && ProjectionExact(t) && Keyed(t) && HoldsAccount(r, t, userId)
    ensures r == View(t, userId)
  {
    ViewHoldsAccount(t, userId);
    HeldMovements(r, View(t, userId), t, userId);
    HeldProducts(r, View(t, userId), t, userId);
    assert r.balances == View(t, userId).balances;
  }

  // ----- Rows of the ledger as a keyed table -----

  lemma {:induction false} RowsContain(ms: seq<StockMovement>, userId: Uuid, i: nat)
    requires i < |ms| && ms[i].userId == userId
    requires forall j, k | 0 <= j < k < |ms| :: ms[j].id != ms[k].id
    ensures ms[i].id in MovementRows(ms, userId) && MovementRows(ms, userId)[ms[i].id] == ViewMovement(ms[i])
  {
    if i < |ms| - 1 {
      RowsContain(ms[..|ms| - 1], userId, i);
    }
  }

  lemma {:induction false} RowsOnly(ms: seq<StockMovement>, userId: Uuid, id: Uuid)
    requires id in MovementRows(ms, userId)
    ensures exists i | 0 <= i < |ms| ::
      ms[i].id == id && ms[i].userId == userId && MovementRows(ms, userId)[id] == ViewMovement(ms[i])
  {
    var m := ms[|ms| - 1];
    if m.userId != userId || m.id != id {
      RowsOnly(ms[..|ms| - 1], userId, id);
      var i :| 0 <= i < |ms| - 1 && ms[i].id == id && ms[i].userId == userId &&
               MovementRows(ms[..|ms| - 1], userId)[id] == ViewMovement(ms[i]);
    }
  }

  lemma {:induction false} DerivedEmpty(movements: map<Uuid, MovementView>, productId: Uuid)
    requires forall id | id in movements :: movements[id].productId != productId
    ensures DeriveBalance(movements, productId) == ReplicaBalance(0, None)
    decreases |movements|
  {
    if movements != map[] {
      forall id | id in movements ensures DeriveBalance(movements - {id}, productId) == ReplicaBalance(0, None) {
        assert (movements - {id}).Keys < movements.Keys;
        DerivedEmpty(movements - {id}, productId);
      }
    }
  }

  // ----- Entries already reflected change nothing -----

  lemma StaleMovement(t: Tables, v: MovementView, userId: Uuid, k: nat)
    requires LedgerSound(t) && k < |t.movements| && t.movements[k].userId == userId && ViewMovement(t.movements[k]) == v
    requires SoundMovementView(v)
    ensures ApplyMovement(View(t, userId), v) == Ok(View(t, userId))
  {
    assert RowSound(t, k);
    RowsContain(t.movements, userId, k);
    if v.reversesId.Some? {
      var j :| 0 <= j < k && t.movements[j].id == v.reversesId.value && Concerns(t.movements[j], userId, v.productId);
      RowsContain(t.movements, userId, j);
    }
  }

  lemma StaleProduct(t: Tables, v: ProductView, userId: Uuid)
    requires v.id in t.products && t.products[v.id].userId == userId && v.version <= t.products[v.id].version
    requires SoundProductView(v)
    requires v.version == t.products[v.id].version || v.deletedAt.Some? ==> v == ViewProduct(t.products[v.id])
    ensures ApplyProduct(View(t, userId), v) == Ok(View(t, userId))
  {
  }

  lemma StaleEntry(t: Tables, e: ChangeLogEntry, userId: Uuid)
    requires Valid(t) && e in t.changeLog && e.userId == userId
    ensures ApplyEntry(View(t, userId), e) == Ok(View(t, userId))
  {
    var i :| 0 <= i < |t.changeLog| && t.changeLog[i] == e;
    assert Reflected(t, e) && EntrySound(e, i + 1);
    match e.payload
    case MovementPayload(v, _) =>
      var k :| 0 <= k < |t.movements| && t.movements[k].userId == userId && ViewMovement(t.movements[k]) == v;
      StaleMovement(t, v, userId, k);
    case ProductPayload(v) => StaleProduct(t, v, userId);
  }

  lemma {:induction false} StaleEntries(t: Tables, es: seq<ChangeLogEntry>, userId: Uuid)
    requires Valid(t) && forall e | e in es :: e in t.changeLog && e.userId == userId
    ensures ApplyAll(View(t, userId), es) == Ok(View(t, userId))
  {
    if es != [] {
      StaleEntries(t, es[..|es| - 1], userId);
      StaleEntry(t, es[|es| - 1], userId);
    }
  }

  // ----- A new entry carries the view forward -----

  lemma UnknownProductHasNoRows(t: Tables, userId: Uuid, id: Uuid)
    requires LedgerSound(t) && id !in t.products
    ensures DeriveBalance(MovementRows(t.movements, userId), id) == ReplicaBalance(0, None)
    ensures LedgerQty(t.movements, userId, id) == 0 && LedgerLast(t.movements, userId, id) == None
  {
    var rows := MovementRows(t.movements, userId);
    forall k | k in rows ensures rows[k].productId != id {
      RowsOnly(t.movements, userId, k);
      var i :| 0 <= i < |t.movements| && t.movements[i].id == k && t.movements[i].userId == userId
        && rows[k] == ViewMovement(t.movements[i]);
      assert RowSound(t, i);
    }
    DerivedEmpty(rows, id);
    forall m | m in t.movements ensures !Concerns(m, userId, id) {
      var i :| 0 <= i < |t.movements| && t.movements[i] == m;
      assert RowSound(t, i);
    }
    NoRows(t.movements, userId, id);
  }

  /** No other active product of the account's view holds the barcode. */
  lemma BarcodeFreeInView(t: Tables, who: Identity, p: Product, op: ChangeOp)
    requires Keyed(t) && AdmissibleProduct(t, who, p, op)
    ensures p.Active() ==> !BarcodeInUseBy(View(t, who.userId), p.id, p.fields.barcode)
  {
    var rows := View(t, who.userId).products;
    assert forall q | q in rows :: q in t.products && rows[q] == ViewProduct(t.products[q]);
  }

  /** Products of the account's view after a product is written. */
  lemma ViewProductsAfter(t: Tables, who: Identity, opId: Uuid, d: Decision, clock: Clock)
    requires d.WriteProduct? && d.product.userId == who.userId
    ensures View(Complete(t, who, opId, d, clock), who.userId).products ==
            View(t, who.userId).products[d.product.id := ViewProduct(d.product)]
  {
  }

  lemma ViewBalancesAfter(t: Tables, who: Identity, opId: Uuid, d: Decision, clock: Clock)
    requires LedgerSound(t) && d.WriteProduct? && d.product.userId == who.userId
    requires d.product.id in t.products ==> t.products[d.product.id].userId == who.userId
    ensures View(Complete(t, who, opId, d, clock), who.userId).balances ==
            PutProduct(View(t, who.userId), ViewProduct(d.product)).balances
  {
    if d.product.id !in t.products {
      UnknownProductHasNoRows(t, who.userId, d.product.id);
    }
  }

  lemma PutIsView(t: Tables, who: Identity, opId: Uuid, d: Decision, clock: Clock)
    requires Keyed(t) && LedgerSound(t) && d.WriteProduct? && Admissible(t, who, d)
    ensures PutProduct(View(t, who.userId), ViewProduct(d.product)) ==
      View(Complete(t, who, opId, d, clock), who.userId)
  {
    ViewProductsAfter(t, who, opId, d, clock);
    ViewBalancesAfter(t, who, opId, d, clock);
  }

  lemma NewProductEntry(t: Tables, who: Identity, opId: Uuid, d: Decision, clock: Clock)
    requires Keyed(t) && LedgerSound(t) && d.WriteProduct? && Admissible(t, who, d)
    ensures ApplyProduct(View(t, who.userId), ViewProduct(d.product)) ==
      Ok(View(Complete(t, who, opId, d, clock), who.userId))
  {
    PutIsView(t, who, opId, d, clock);
    BarcodeFreeInView(t, who, d.product, d.op);
  }

  lemma NewMovementEntry(t: Tables, who: Identity, opId: Uuid, d: Decision, clock: Clock)
    requires Keyed(t) && LedgerSound(t) && d.WriteMovement? && Admissible(t, who, d)
    ensures ApplyMovement(View(t, who.userId), ViewMovement(d.movement)) ==
      Ok(View(Complete(t, who, opId, d, clock), who.userId))
  {
    var r, m := View(t, who.userId), d.movement;
    var after := View(Complete(t, who, opId, d, clock), who.userId);
    if m.id in r.movements {
      RowsOnly(t.movements, who.userId, m.id);
    }
    if m.reversesId.Some? {
      var i :| 0 <= i < |t.movements| && t.movements[i].id == m.reversesId.value
        && Concerns(t.movements[i], m.userId, m.productId);
      RowsContain(t.movements, who.userId, i);
    }
    assert (t.movements + [m])[..|t.movements|] == t.movements;
    forall id | id in r.balances ensures
      after.balances[id] == if id == m.productId then Accumulate(r.balances[id], ViewMovement(m)) else r.balances[id]
    {
      AppendRow(t.movements, m, who.userId, id);
    }
    assert after.products == r.products;
    assert after.balances == r.balances[m.productId := Accumulate(r.balances[m.productId], ViewMovement(m))];
  }

  lemma OtherAccountMovement(t: Tables, m: StockMovement, userId: Uuid)
    requires m.userId != userId
    ensures MovementRows(t.movements + [m], userId) == MovementRows(t.movements, userId)
    ensures forall id :: LedgerQty(t.movements + [m], userId, id) == LedgerQty(t.movements, userId, id)
    ensures forall id :: LedgerLast(t.movements + [m], userId, id) == LedgerLast(t.movements, userId, id)
  {
    assert (t.movements + [m])[..|t.movements|] == t.movements;
    forall id: Uuid
      ensures LedgerQty(t.movements + [m], userId, id) == LedgerQty(t.movements, userId, id)
      ensures LedgerLast(t.movements + [m], userId, id) == LedgerLast(t.movements, userId, id)
    {
      AppendRow(t.movements, m, userId, id);
    }
  }

  /** The view is made of the account's products and ledger rows only. */
  lemma SameView(t: Tables, next: Tables, userId: Uuid)
    requires MovementRows(next.movements, userId) == MovementRows(t.movements, userId)
    requires forall id :: LedgerQty(next.movements, userId, id) == LedgerQty(t.movements, userId, id)
    requires forall id :: LedgerLast(next.movements, userId, id) == LedgerLast(t.movements, userId, id)
    requires forall id ::
      id in next.products && next.products[id].userId == userId <==> id in t.products && t.products[id].userId == userId
    requires forall id | id in t.products && t.products[id].userId == userId :: next.products[id] == t.products[id]
    ensures View(next, userId) == View(t, userId)
  {
    assert View(next, userId).products == View(t, userId).products;
    assert View(next, userId).balances == View(t, userId).balances;
  }

  /** An operation of one account is invisible to every other account. */
  lemma OtherAccount(t: Tables, who: Identity, opId: Uuid, d: Decision, clock: Clock, userId: Uuid)
    requires Keyed(t) && !d.Abandon? && Admissible(t, who, d) && userId != who.userId
    ensures View(Complete(t, who, opId, d, clock), userId) == View(t, userId)
  {
    if d.WriteMovement? {
      OtherAccountMovement(t, d.movement, userId);
    }
    SameView(t, Complete(t, who, opId, d, clock), userId);
  }

  // ----- The theorem -----

  /** One entry, seen from any account: it is applied by its own account and
      not delivered to the others. */
  lemma EntryReplicates(t: Tables, who: Identity, opId: Uuid, d: Decision, clock: Clock, userId: Uuid)
    requires Keyed(t) && LedgerSound(t) && Admissible(t, who, d) && (d.WriteProduct? || d.WriteMovement?)
    ensures var next := View(Complete(t, who, opId, d, clock), userId);
      if userId == who.userId then
        ApplyEntry(View(t, userId), EntryOf(who, d, t.lastSeq + 1, clock.transaction)) == Ok(next)
      else next == View(t, userId)
  {
    if userId != who.userId {
      OtherAccount(t, who, opId, d, clock, userId);
    } else if d.WriteProduct? {
      NewProductEntry(t, who, opId, d, clock);
    } else {
      NewMovementEntry(t, who, opId, d, clock);
    }
  }

  lemma ApplyOneMore(r: Replica, es: seq<ChangeLogEntry>, e: ChangeLogEntry, before: Replica)
    requires ApplyAll(r, es) == Ok(before)
    ensures ApplyAll(r, es + [e]) == ApplyEntry(before, e)
  {
    assert (es + [e])[..|es|] == es;
  }

  lemma RejectKeepsView(t: Tables, who: Identity, opId: Uuid, d: Decision, clock: Clock, userId: Uuid)
    requires d.Reject?
    ensures View(Complete(t, who, opId, d, clock), userId) == View(t, userId)
  {
    var next, was := View(Complete(t, who, opId, d, clock), userId), View(t, userId);
    assert next.products == was.products;
    assert next.balances == was.balances;
  }

  /** A log grown by one entry carries the replica one entry further. */
  lemma EntryCarriesReplica(r: Replica, log: seq<ChangeLogEntry>, e: ChangeLogEntry, userId: Uuid, after: nat,
                            was: Replica, next: Replica)
    requires ApplyAll(r, UserLog(log, userId, after)) == Ok(was) && e.cursor > after
    requires if e.userId == userId then ApplyEntry(was, e) == Ok(next) else next == was
    ensures ApplyAll(r, UserLog(log + [e], userId, after)) == Ok(next)
  {
    AppendUserLog(log, e, userId, after);
    if e.userId == userId {
      ApplyOneMore(r, UserLog(log, userId, after), e, was);
    } else {
      assert UserLog(log, userId, after) + [] == UserLog(log, userId, after);
    }
  }

  lemma LogOneLonger(t: Tables, who: Identity, opId: Uuid, d: Decision, clock: Clock)
    requires d.WriteProduct? || d.WriteMovement?
    ensures Complete(t, who, opId, d, clock).changeLog ==
            t.changeLog + [EntryOf(who, d, t.lastSeq + 1, clock.transaction)]
  {
  }

  lemma WriteReplicates(t: Tables, who: Identity, opId: Uuid, d: Decision, clock: Clock, userId: Uuid, after: nat,
                        r: Replica)
    requires Keyed(t) && LedgerSound(t) && Admissible(t, who, d) && (d.WriteProduct? || d.WriteMovement?)
    requires after <= t.lastSeq
    requires ApplyAll(r, UserLog(t.changeLog, userId, after)) == Ok(View(t, userId))
    ensures ApplyAll(r, UserLog(t.changeLog + [EntryOf(who, d, t.lastSeq + 1, clock.transaction)], userId, after)) ==
            Ok(View(Complete(t, who, opId, d, clock), userId))
  {
    EntryReplicates(t, who, opId, d, clock, userId);
    EntryCarriesReplica(r, t.changeLog, EntryOf(who, d, t.lastSeq + 1, clock.transaction), userId, after,
                        View(t, userId), View(Complete(t, who, opId, d, clock), userId));
  }

  lemma RejectReplicates(t: Tables, who: Identity, opId: Uuid, d: Decision, clock: Clock, userId: Uuid, after: nat,
                         r: Replica)
    requires d.Reject? && ApplyAll(r, UserLog(t.changeLog, userId, after)) == Ok(View(t, userId))
    ensures var next := Complete(t, who, opId, d, clock);
      ApplyAll(r, UserLog(next.changeLog, userId, after)) == Ok(View(next, userId))
  {
    RejectKeepsView(t, who, opId, d, clock, userId);
  }

  lemma CompleteReplicates(t: Tables, who: Identity, opId: Uuid, d: Decision, clock: Clock, userId: Uuid, after: nat,
                           r: Replica)
    requires Keyed(t) && LedgerSound(t) && !d.Abandon? && Admissible(t, who, d) && after <= t.lastSeq
    requires ApplyAll(r, UserLog(t.changeLog, userId, after)) == Ok(View(t, userId))
    ensures var next := Complete(t, who, opId, d, clock);
      ApplyAll(r, UserLog(next.changeLog, userId, after)) == Ok(View(next, userId))
  {
    if d.Reject? {
      RejectReplicates(t, who, opId, d, clock, userId, after, r);
    } else {
      LogOneLonger(t, who, opId, d, clock);
      WriteReplicates(t, who, opId, d, clock, userId, after, r);
    }
  }

  /** One delivery moves the account view by exactly the log entries it adds. */
  lemma DeliverReplicates(t: Tables, d: Delivery, userId: Uuid, after: nat, r: Replica)
    requires Keyed(t) && LedgerSound(t) && after <= t.lastSeq
    requires ApplyAll(r, UserLog(t.changeLog, userId, after)) == Ok(View(t, userId))
    ensures ApplyAll(r, UserLog(Deliver(t, d).changeLog, userId, after)) == Ok(View(Deliver(t, d), userId))
  {
    var decision := DeliverCases(t, d);
    if !decision.Abandon? {
      CompleteReplicates(t, d.who, d.op.opId, decision, d.clock, userId, after, r);
    }
  }

  lemma LogGrows(t: Tables, d: Delivery)
    requires Valid(t)
    ensures t.lastSeq <= Deliver(t, d).lastSeq && t.changeLog <= Deliver(t, d).changeLog
  {
  }

  lemma {:induction false} ViewConverges(t: Tables, ds: seq<Delivery>, userId: Uuid, cursor: nat)
    requires Valid(t) && cursor <= t.lastSeq
    ensures ApplyAll(View(t, userId), UserLog(Run(t, ds).changeLog, userId, cursor)) == Ok(View(Run(t, ds), userId))
    ensures t.lastSeq <= Run(t, ds).lastSeq
  {
    if ds == [] {
      UserLogMembers(t.changeLog, userId, cursor);
      StaleEntries(t, UserLog(t.changeLog, userId, cursor), userId);
    } else {
      var front := ds[..|ds| - 1];
      ViewConverges(t, front, userId, cursor);
      RunValid(t, front);
      LogGrows(Run(t, front), ds[|ds| - 1]);
      DeliverReplicates(Run(t, front), ds[|ds| - 1], userId, cursor, View(t, userId));
    }
  }

  /** Take a replica that holds one account as of any valid state. Apply the
      account's entries after any cursor that is not ahead of that state, read
      after any further run. No entry is refused, and the replica then holds
      the account as it is, column by column. */
  lemma ReplicaConverges(r: Replica, t: Tables, ds: seq<Delivery>, userId: Uuid, cursor: nat)
    requires Valid(t) && HoldsAccount(r, t, userId) && cursor <= t.lastSeq
    ensures var applied := ApplyAll(r, UserLog(Run(t, ds).changeLog, userId, cursor));
      applied.Ok? && HoldsAccount(applied.value, Run(t, ds), userId)
  {
    HoldsOnlyView(r, t, userId);
    ViewConverges(t, ds, userId, cursor);
    RunValid(t, ds);
    ViewHoldsAccount(Run(t, ds), userId);
  }

  /** In particular the log alone, applied to an empty replica, is enough. */
  lemma LogRebuildsReplica(devices: map<Uuid, Uuid>, ds: seq<Delivery>, userId: Uuid)
    ensures var applied :=
        ApplyAll(Replica(map[], map[], map[]), UserLog(Run(EmptyTables(devices), ds).changeLog, userId, 0));
      && applied == Ok(View(Run(EmptyTables(devices), ds), userId))
      && HoldsAccount(applied.value, Run(EmptyTables(devices), ds), userId)
  {
    var t := EmptyTables(devices);
    EmptyValid(devices);
    assert View(t, userId) == Replica(map[], map[], map[]);
    ViewConverges(t, ds, userId, 0);
    RunValid(t, ds);
    ViewHoldsAccount(Run(t, ds), userId);
  }
}
