/** Operations in concurrent transactions. Row locks and unique-index entries
    are held to the end of a transaction, as is the lock on the counter row.
    Whatever the interleaving, the committed tables are those of some run of
    the same operations one after another, so everything that is proved of
    runs holds under concurrency too. */
module Concurrency {
  import opened Prelude
  import opened Schema
  import opened Ledger
  import opened SyncPolicy
  import opened Invariants
  import opened Runs
  import opened ChangeFeed
  import M = MovementPolicy
  import P = ProductPolicy

  // ----- Locks -----

  datatype Lock = ProductRow(id: Uuid) | MovementKey(id: Uuid) | BarcodeEntry(barcode: string)

  /** What a transaction that writes holds until it ends. */
  function LocksOf(d: Decision): set<Lock> {
    match d
    case WriteProduct(p, _) =>
      {ProductRow(p.id)} + (if p.Active() && p.fields.barcode.Some? then {BarcodeEntry(p.fields.barcode.value)} else {})
    case WriteMovement(m, _) => {ProductRow(m.productId), MovementKey(m.id)}
    case _ => {}
  }

  predicate Writes(d: Decision) {
    d.WriteProduct? || d.WriteMovement?
  }

  // ----- The system -----

  /** A transaction under way: its decision and the balance row it computed
      when it decided, then the cursor it allocated. `mark` is history: how
      many operations of the serial order its reads had seen. */
  datatype Pending = Pending(delivery: Delivery, decision: Decision, balance: Option<ProductBalance>,
                             cursor: Option<nat>, mark: nat)

  /** Committed tables, open transactions, the holder of the counter row, and
      as history the serial order of what has been committed. */
  datatype System = System(committed: Tables, active: map<nat, Pending>, holder: Option<nat>, serial: seq<Delivery>)

  datatype Event =
    | Decides(tx: nat, delivery: Delivery)
    | Allocates(tx: nat)
    | Commits(tx: nat)
    | Aborts(tx: nat)

  /** The projection row that the decision leads to, from the row it read. */
  function BalanceRow(t: Tables, d: Decision, now: Timestamp): Option<ProductBalance> {
    match d
    case WriteMovement(m, _) =>
      var before := if m.productId in t.balances then Some(t.balances[m.productId]) else None;
      Some(Increment(before, m.delta, m.occurredAt, now))
    case WriteProduct(p, _) => if p.id in t.products then None else Some(ProductBalance(0, None, now))
    case _ => None
  }

  function ResultWith(opId: Uuid, d: Decision, cursor: Option<nat>): OperationResult {
    match d
    case Reject(reason, state, stocktake) => OperationResult(opId, Rejected, None, Some(reason), state, stocktake)
    case WriteMovement(_, resolution) => OperationResult(opId, Applied, cursor, None, None, resolution)
    case _ => OperationResult(opId, Applied, cursor, None, None, None)
  }

  /** COMMIT makes the rows visible that the transaction wrote while other
      transactions were committing theirs. */
  function Install(t: Tables, x: Pending): Tables
    requires Writes(x.decision) ==> x.cursor.Some?
  {
    var who, clock := x.delivery.who, x.delivery.clock;
    var domain := match x.decision
      case WriteProduct(p, _) =>
        t.(products := t.products[p.id := p],
           balances := if x.balance.Some? then t.balances[p.id := x.balance.value] else t.balances)
      case WriteMovement(m, _) =>
        t.(movements := t.movements + [m],
           balances := if x.balance.Some? then t.balances[m.productId := x.balance.value] else t.balances)
      case _ => t;
    var logged := if Writes(x.decision)
      then domain.(lastSeq := x.cursor.value,
                   changeLog := t.changeLog + [EntryOf(who, x.decision, x.cursor.value, clock.transaction)])
      else domain;
    var outcome := OutcomeRow(who, ResultWith(x.delivery.op.opId, x.decision, x.cursor), clock);
    logged.(syncOps := t.syncOps[x.delivery.Key() := outcome])
  }

  /** The reservation waits for a transaction that holds the same key, and the
      writes wait for those that hold one of their locks. */
  ghost predicate CanDecide(s: System, tx: nat, d: Delivery) {
    && tx !in s.active && !d.fate.Dropped? && NIL_UUID !in {d.who.userId, d.who.deviceId, d.op.opId}
    && CanReserve(s.committed, d.who, d.op.opId)
    && var decision := Decide(s.committed, d.who, d.op, d.clock.transaction);
       && !decision.Abandon?
       && forall y | y in s.active ::
            s.active[y].delivery.Key() != d.Key() && LocksOf(s.active[y].decision) !! LocksOf(decision)
  }

  ghost predicate Enabled(s: System, e: Event) {
    match e
    case Decides(tx, d) => CanDecide(s, tx, d)
    case Allocates(tx) => tx in s.active && Writes(s.active[tx].decision) && s.active[tx].cursor.None? && s.holder.None?
    case Commits(tx) => tx in s.active && (Writes(s.active[tx].decision) ==> s.active[tx].cursor.Some?)
    case Aborts(tx) => tx in s.active
  }

  function Released(s: System, tx: nat): Option<nat> {
    if s.holder == Some(tx) then None else s.holder
  }

  /** A rejected operation read the committed rows when it decided, and its
      outcome touches nothing else: it takes its place in the serial order
      there. One that writes takes its place when it commits. */
  function Position(s: System, tx: nat): nat
    requires tx in s.active
  {
    if Writes(s.active[tx].decision) then |s.serial|
    else if s.active[tx].mark <= |s.serial| then s.active[tx].mark else |s.serial|
  }

  function InsertAt(ds: seq<Delivery>, k: nat, d: Delivery): seq<Delivery>
    requires k <= |ds|
  {
    ds[..k] + [d] + ds[k..]
  }

  function Shift(x: Pending, k: nat): Pending {
    if x.mark > k then x.(mark := x.mark + 1) else x
  }

  /** An event that is not enabled has to wait: nothing happens. */
  ghost function After(s: System, e: Event): System {
    if !Enabled(s, e) then s
    else
      match e
      case Decides(tx, d) =>
        var decision := Decide(s.committed, d.who, d.op, d.clock.transaction);
        var x := Pending(d, decision, BalanceRow(s.committed, decision, d.clock.transaction), None, |s.serial|);
        s.(active := s.active[tx := x])
      case Allocates(tx) =>
        s.(active := s.active[tx := s.active[tx].(cursor := Some(s.committed.lastSeq + 1))], holder := Some(tx))
      case Aborts(tx) => s.(active := s.active - {tx}, holder := Released(s, tx))
      case Commits(tx) =>
        var k := Position(s, tx);
        System(Install(s.committed, s.active[tx]),
               map y | y in s.active && y != tx :: Shift(s.active[y], k),
               Released(s, tx),
               InsertAt(s.serial, k, s.active[tx].delivery))
  }

  ghost function Execute(s: System, es: seq<Event>): System {
    if es == [] then s else After(Execute(s, es[..|es| - 1]), es[|es| - 1])
  }

  function Initial(t: Tables): System {
    System(t, map[], None, [])
  }

  // ----- Decisions that write are stable under other transactions -----

  lemma AppendKeepsReversal(ms: seq<StockMovement>, m: StockMovement, input: M.AppendInput)
    requires M.ReversalError(ms, input).None? && !MovementExists(ms, m.id)
    ensures M.ReversalError(ms + [m], input).None?
  {
    assert (ms + [m])[..|ms|] == ms;
  }

  lemma StocktakeStable(t: Tables, input: M.AppendInput, now: Timestamp, next: Tables, m: StockMovement)
    requires input.countedQty.Some? && next.devices == t.devices
    requires next.movements == t.movements + [m] && m.productId != input.productId && m.id != input.id
    ensures M.DecideStocktake(next, input, now) == M.DecideStocktake(t, input, now)
  {
    AppendRow(t.movements, m, input.userId, input.productId);
    AppendKeepsIds(t.movements, m);
  }

  lemma InsertStable(t: Tables, input: M.AppendInput, now: Timestamp, next: Tables, m: StockMovement)
    requires next.devices == t.devices && next.movements == t.movements + [m] && m.id != input.id
    ensures M.DecideInsert(next, input, input.delta, None, now) == M.DecideInsert(t, input, input.delta, None, now)
  {
    AppendKeepsIds(t.movements, m);
  }

  lemma AppendStable(t: Tables, input: M.AppendInput, now: Timestamp, next: Tables, m: StockMovement)
    requires input.kind.Stocktake? ==> input.countedQty.Some?
    requires M.DecideAppend(t, input, now).Append?
    requires next.devices == t.devices && next.products == t.products
    requires next.movements == t.movements + [m] && !MovementExists(t.movements, m.id)
    requires m.productId != input.productId && m.id != input.id
    ensures M.DecideAppend(next, input, now) == M.DecideAppend(t, input, now)
  {
    AppendKeepsReversal(t.movements, m, input);
    if input.kind.Stocktake? {
      StocktakeStable(t, input, now, next, m);
    } else {
      InsertStable(t, input, now, next, m);
    }
  }

  lemma MovementStableByMovement(t: Tables, who: Identity, request: MovementRequest, now: Timestamp, next: Tables,
                                 m: StockMovement)
    requires DecideMovement(t, who, request, now).WriteMovement?
    requires next.devices == t.devices && next.products == t.products
    requires next.movements == t.movements + [m] && !MovementExists(t.movements, m.id)
    requires m.productId != DecideMovement(t, who, request, now).movement.productId
    requires m.id != DecideMovement(t, who, request, now).movement.id
    ensures DecideMovement(next, who, request, now) == DecideMovement(t, who, request, now)
  {
    AppendStable(t, M.NormalizeAppend(AppendInputOf(request, who)).value, now, next, m);
  }

  lemma MovementStableByProduct(t: Tables, who: Identity, request: MovementRequest, now: Timestamp, next: Tables)
    requires DecideMovement(t, who, request, now).WriteMovement?
    requires next.devices == t.devices && next.movements == t.movements
    requires var id := DecideMovement(t, who, request, now).movement.productId;
      id in t.products && id in next.products && next.products[id] == t.products[id]
    ensures DecideMovement(next, who, request, now) == DecideMovement(t, who, request, now)
  {
  }

  lemma MovementStable(t: Tables, who: Identity, request: MovementRequest, now: Timestamp, next: Tables,
                       other: Decision)
    requires DecideMovement(t, who, request, now).WriteMovement?
    requires next.devices == t.devices
    requires match other
      case WriteMovement(m, _) =>
        next.movements == t.movements + [m] && next.products == t.products && !MovementExists(t.movements, m.id)
      case WriteProduct(p, _) => next.movements == t.movements && next.products == t.products[p.id := p]
      case _ => next.movements == t.movements && next.products == t.products
    requires LocksOf(DecideMovement(t, who, request, now)) !! LocksOf(other)
    ensures DecideMovement(next, who, request, now) == DecideMovement(t, who, request, now)
  {
    var d := DecideMovement(t, who, request, now);
    assert ProductRow(d.movement.productId) in LocksOf(d) && MovementKey(d.movement.id) in LocksOf(d);
    if other.WriteMovement? {
      var m := other.movement;
      assert ProductRow(m.productId) in LocksOf(other) && MovementKey(m.id) in LocksOf(other);
      MovementStableByMovement(t, who, request, now, next, m);
    } else {
      assert other.WriteProduct? ==> ProductRow(other.product.id) in LocksOf(other);
      MovementStableByProduct(t, who, request, now, next);
    }
  }

  lemma AppendKeepsIds(ms: seq<StockMovement>, m: StockMovement)
    ensures forall id :: MovementExists(ms + [m], id) <==> MovementExists(ms, id) || id == m.id
  {
    forall id ensures MovementExists(ms + [m], id) <==> MovementExists(ms, id) || id == m.id {
      assert (ms + [m])[|ms|] == m;
      if MovementExists(ms, id) {
        var i :| 0 <= i < |ms| && ms[i].id == id;
        assert (ms + [m])[i].id == id;
      }
    }
  }

  lemma UpsertStable(t: Tables, who: Identity, baseVersion: Option<int>, id: Uuid, fields: Fields, now: Timestamp,
                     next: Tables, other: Decision)
    requires Keyed(t) && DecideUpsert(t, who, baseVersion, id, fields, now).WriteProduct?
    requires next.devices == t.devices
    requires
      if other.WriteProduct? then next.products == t.products[other.product.id := other.product]
      else next.products == t.products
    requires LocksOf(DecideUpsert(t, who, baseVersion, id, fields, now)) !! LocksOf(other)
    ensures DecideUpsert(next, who, baseVersion, id, fields, now) == DecideUpsert(t, who, baseVersion, id, fields, now)
  {
    var d := DecideUpsert(t, who, baseVersion, id, fields, now);
    var barcode := P.NormalizeFields(fields).barcode;
    assert ProductRow(d.product.id) in LocksOf(d);
    if other.WriteProduct? {
      var p := other.product;
      assert ProductRow(p.id) in LocksOf(other);
      assert barcode.Some? ==> BarcodeEntry(barcode.value) in LocksOf(d);
      assert p.Active() && p.fields.barcode.Some? ==> BarcodeEntry(p.fields.barcode.value) in LocksOf(other);
    }
  }

  lemma TombstoneStable(t: Tables, who: Identity, baseVersion: Option<int>, id: Uuid, now: Timestamp, next: Tables,
                        other: Decision)
    requires Keyed(t) && DecideTombstone(t, who, baseVersion, id, now).WriteProduct?
    requires next.devices == t.devices
    requires
      if other.WriteProduct? then next.products == t.products[other.product.id := other.product]
      else next.products == t.products
    requires LocksOf(DecideTombstone(t, who, baseVersion, id, now)) !! LocksOf(other)
    ensures DecideTombstone(next, who, baseVersion, id, now) == DecideTombstone(t, who, baseVersion, id, now)
  {
    var d := DecideTombstone(t, who, baseVersion, id, now);
    assert ProductRow(d.product.id) in LocksOf(d);
    if other.WriteProduct? {
      assert ProductRow(other.product.id) in LocksOf(other);
    }
  }

  /** A decision to write, once taken under its locks, is still the decision
      after any other transaction commits. */
  lemma WriteStable(t: Tables, who: Identity, op: Operation, now: Timestamp, them: Identity, opId: Uuid,
                    other: Decision, clock: Clock)
    requires Keyed(t) && Writes(Decide(t, who, op, now)) && !other.Abandon? && Admissible(t, them, other)
    requires LocksOf(Decide(t, who, op, now)) !! LocksOf(other)
    ensures Decide(Complete(t, them, opId, other, clock), who, op, now) == Decide(t, who, op, now)
  {
    var next := Complete(t, them, opId, other, clock);
    match op.payload
    case AddMovement(m) => MovementStable(t, who, m, now, next, other);
    case UpsertProduct(id, fields) => UpsertStable(t, who, op.baseVersion, id, fields, now, next, other);
    case DeleteProduct(id, _) => TombstoneStable(t, who, op.baseVersion, id, now, next, other);
    case Undecodable =>
  }

  /** So is the balance row that was computed from the row under lock. */
  lemma BalanceStable(t: Tables, d: Decision, now: Timestamp, them: Identity, opId: Uuid, other: Decision, clock: Clock)
    requires Writes(d) && !other.Abandon? && LocksOf(d) !! LocksOf(other)
    ensures BalanceRow(Complete(t, them, opId, other, clock), d, now) == BalanceRow(t, d, now)
  {
    var product := if d.WriteProduct? then d.product.id else d.movement.productId;
    assert ProductRow(product) in LocksOf(d);
    match other
    case WriteProduct(p, _) => assert ProductRow(p.id) in LocksOf(other);
    case WriteMovement(m, _) => assert ProductRow(m.productId) in LocksOf(other);
    case Reject(_, _, _) =>
  }

  // ----- A rejection commutes with everything after it -----

  function WithOutcome(t: Tables, key: OperationKey, row: SyncOperation): Tables {
    t.(syncOps := t.syncOps[key := row])
  }

  lemma CompleteWithOutcome(t: Tables, key: OperationKey, row: SyncOperation, who: Identity, opId: Uuid, d: Decision,
                            clock: Clock)
    requires !d.Abandon? && OperationKey(who.deviceId, opId) != key
    ensures Complete(WithOutcome(t, key, row), who, opId, d, clock) ==
      WithOutcome(Complete(t, who, opId, d, clock), key, row)
  {
    var mine := OperationKey(who.deviceId, opId);
    var stored := OutcomeRow(who, ResultOf(t, opId, d), clock);
    assert t.syncOps[key := row][mine := stored] == t.syncOps[mine := stored][key := row];
  }

  function AnswerWithOutcome(a: Answer, key: OperationKey, row: SyncOperation): Answer {
    if a.Error? then Error else Done(WithOutcome(a.tables, key, row), a.result)
  }

  lemma ProcessWithOutcome(t: Tables, key: OperationKey, row: SyncOperation, who: Identity, op: Operation, clock: Clock)
    requires OperationKey(who.deviceId, op.opId) != key
    ensures Process(WithOutcome(t, key, row), who, op, clock) == AnswerWithOutcome(Process(t, who, op, clock), key, row)
  {
    var next := WithOutcome(t, key, row);
    assert CanReserve(next, who, op.opId) == CanReserve(t, who, op.opId);
    assert Replay(next, who, op.opId) == AnswerWithOutcome(Replay(t, who, op.opId), key, row);
    var d := Decide(t, who, op, clock.transaction);
    assert Decide(next, who, op, clock.transaction) == d by {
      DecideIgnoresOutcomes(t, next.syncOps, who, op, clock.transaction);
    }
    if !d.Abandon? {
      CompleteWithOutcome(t, key, row, who, op.opId, d, clock);
    }
  }

  lemma DeliverWithOutcome(t: Tables, key: OperationKey, row: SyncOperation, d: Delivery)
    requires d.Key() != key
    ensures Deliver(WithOutcome(t, key, row), d) == WithOutcome(Deliver(t, d), key, row)
  {
    ProcessWithOutcome(t, key, row, d.who, d.op, d.clock);
  }

  lemma {:induction false} RunWithOutcome(t: Tables, key: OperationKey, row: SyncOperation, ds: seq<Delivery>)
    requires forall d | d in ds :: d.Key() != key
    ensures Run(WithOutcome(t, key, row), ds) == WithOutcome(Run(t, ds), key, row)
  {
    if ds != [] {
      var front := ds[..|ds| - 1];
      RunWithOutcome(t, key, row, front);
      DeliverWithOutcome(Run(t, front), key, row, ds[|ds| - 1]);
    }
  }

  lemma RejectAdds(t: Tables, d: Delivery)
    requires !d.fate.Dropped? && NIL_UUID !in {d.who.userId, d.who.deviceId, d.op.opId}
    requires CanReserve(t, d.who, d.op.opId) && Decide(t, d.who, d.op, d.clock.transaction).Reject?
    ensures Deliver(t, d) == WithOutcome(t, d.Key(),
      OutcomeRow(d.who, ResultWith(d.op.opId, Decide(t, d.who, d.op, d.clock.transaction), None), d.clock))
  {
  }

  /** Placing a rejected operation where it decided adds only its outcome to
      the tables at the end. */
  lemma RejectInPlace(t: Tables, ds: seq<Delivery>, k: nat, d: Delivery)
    requires k <= |ds| && forall e | e in ds :: e.Key() != d.Key()
    requires !d.fate.Dropped? && NIL_UUID !in {d.who.userId, d.who.deviceId, d.op.opId}
    requires CanReserve(Run(t, ds[..k]), d.who, d.op.opId)
    requires Decide(Run(t, ds[..k]), d.who, d.op, d.clock.transaction).Reject?
    ensures var decision := Decide(Run(t, ds[..k]), d.who, d.op, d.clock.transaction);
      Run(t, InsertAt(ds, k, d)) ==
        WithOutcome(Run(t, ds), d.Key(), OutcomeRow(d.who, ResultWith(d.op.opId, decision, None), d.clock))
  {
    var before := Run(t, ds[..k]);
    var decision := Decide(before, d.who, d.op, d.clock.transaction);
    var row := OutcomeRow(d.who, ResultWith(d.op.opId, decision, None), d.clock);
    RunStep(t, ds[..k], d);
    RejectAdds(before, d);
    RunConcat(t, ds[..k] + [d], ds[k..]);
    RunWithOutcome(before, d.Key(), row, ds[k..]);
    RunConcat(t, ds[..k], ds[k..]);
    assert ds[..k] + ds[k..] == ds;
  }

  // ----- The invariant -----

  /** An open transaction would be decided now as it decided then, if it
      writes; if it rejects, as of its mark. */
  ghost predicate PendingSound(t: Tables, s: System, x: Pending) {
    var d := x.delivery;
    && !d.fate.Dropped? && NIL_UUID !in {d.who.userId, d.who.deviceId, d.op.opId}
    && CanReserve(s.committed, d.who, d.op.opId) && x.mark <= |s.serial|
    && if Writes(x.decision) then
         && Decide(s.committed, d.who, d.op, d.clock.transaction) == x.decision
         && BalanceRow(s.committed, x.decision, d.clock.transaction) == x.balance
       else
         var seen := Run(t, s.serial[..x.mark]);
         && x.decision.Reject? && CanReserve(seen, d.who, d.op.opId)
         && Decide(seen, d.who, d.op, d.clock.transaction) == x.decision
  }

  ghost predicate Apart(a: Pending, b: Pending) {
    a.delivery.Key() != b.delivery.Key() && LocksOf(a.decision) !! LocksOf(b.decision)
  }

  ghost predicate CounterHeld(s: System) {
    && (forall x | x in s.active && s.active[x].cursor.Some? ::
          s.holder == Some(x) && s.active[x].cursor.value == s.committed.lastSeq + 1 && Writes(s.active[x].decision))
    && (s.holder.Some? ==> s.holder.value in s.active && s.active[s.holder.value].cursor.Some?)
  }

  ghost predicate Serial(t: Tables, s: System) {
    s.committed == Run(t, s.serial) && forall d | d in s.serial :: d.Key() in s.committed.syncOps
  }

  ghost predicate AllPendingSound(t: Tables, s: System) {
    forall x | x in s.active :: PendingSound(t, s, s.active[x])
  }

  ghost predicate AllApart(s: System) {
    forall x, y | x in s.active && y in s.active && x != y :: Apart(s.active[x], s.active[y])
  }

  ghost predicate Sound(t: Tables, s: System) {
    Serial(t, s) && AllPendingSound(t, s) && AllApart(s) && CounterHeld(s)
  }

  lemma PendingFrame(t: Tables, s: System, next: System, x: Pending, cursor: Option<nat>)
    requires PendingSound(t, s, x) && next.committed == s.committed && next.serial == s.serial
    ensures PendingSound(t, next, x.(cursor := cursor))
  {
  }

  /** The open transactions are among those before, but for their cursors. */
  ghost predicate Framed(s: System, next: System) {
    && next.committed == s.committed && next.serial == s.serial
    && forall x | x in next.active :: x in s.active && next.active[x] == s.active[x].(cursor := next.active[x].cursor)
  }

  lemma FramePendings(t: Tables, s: System, next: System)
    requires AllPendingSound(t, s) && Framed(s, next)
    ensures AllPendingSound(t, next)
  {
    forall x | x in next.active ensures PendingSound(t, next, next.active[x]) {
      PendingFrame(t, s, next, s.active[x], next.active[x].cursor);
    }
  }

  lemma FrameApart(s: System, next: System)
    requires AllApart(s) && Framed(s, next)
    ensures AllApart(next)
  {
    forall x, y | x in next.active && y in next.active && x != y ensures Apart(next.active[x], next.active[y]) {
      assert Apart(s.active[x], s.active[y]);
    }
  }

  lemma DecidedIsSound(t: Tables, s: System, tx: nat, d: Delivery)
    requires Serial(t, s) && CanDecide(s, tx, d)
    ensures PendingSound(t, After(s, Decides(tx, d)), After(s, Decides(tx, d)).active[tx])
  {
    assert s.serial[..|s.serial|] == s.serial;
  }

  lemma DecidesKeepsPendings(t: Tables, s: System, tx: nat, d: Delivery)
    requires Sound(t, s) && CanDecide(s, tx, d)
    ensures AllPendingSound(t, After(s, Decides(tx, d)))
  {
    var next := After(s, Decides(tx, d));
    DecidedIsSound(t, s, tx, d);
    forall x | x in next.active && x != tx ensures PendingSound(t, next, next.active[x]) {
      PendingFrame(t, s, next, s.active[x], s.active[x].cursor);
    }
  }

  lemma DecidesKeepsApart(s: System, tx: nat, d: Delivery)
    requires AllApart(s) && CanDecide(s, tx, d)
    ensures AllApart(After(s, Decides(tx, d)))
  {
    var next := After(s, Decides(tx, d));
    forall x, y | x in next.active && y in next.active && x != y ensures Apart(next.active[x], next.active[y]) {
      if x != tx && y != tx {
        assert Apart(s.active[x], s.active[y]);
      }
    }
  }

  lemma DecidesKeepsSound(t: Tables, s: System, tx: nat, d: Delivery)
    requires Sound(t, s) && CanDecide(s, tx, d)
    ensures Sound(t, After(s, Decides(tx, d)))
  {
    DecidesKeepsPendings(t, s, tx, d);
    DecidesKeepsApart(s, tx, d);
  }

  lemma AllocatesKeepsSound(t: Tables, s: System, tx: nat)
    requires Sound(t, s) && Enabled(s, Allocates(tx))
    ensures Sound(t, After(s, Allocates(tx)))
  {
    FramePendings(t, s, After(s, Allocates(tx)));
    FrameApart(s, After(s, Allocates(tx)));
  }

  lemma AbortsKeepsSound(t: Tables, s: System, tx: nat)
    requires Sound(t, s) && tx in s.active
    ensures Sound(t, After(s, Aborts(tx)))
  {
    FramePendings(t, s, After(s, Aborts(tx)));
    FrameApart(s, After(s, Aborts(tx)));
  }

  /** The rows written under the locks, installed at commit, are the complete
      effect of the decision on the tables as they then are. */
  lemma InstallIsComplete(t: Tables, x: Pending)
    requires Writes(x.decision) && x.cursor == Some(t.lastSeq + 1)
    requires x.balance == BalanceRow(t, x.decision, x.delivery.clock.transaction)
    ensures Install(t, x) == Complete(t, x.delivery.who, x.delivery.op.opId, x.decision, x.delivery.clock)
  {
  }

  lemma CommittedWrite(t: Tables, s: System, tx: nat)
    requires Valid(t) && Sound(t, s) && Enabled(s, Commits(tx)) && Writes(s.active[tx].decision)
    ensures var x := s.active[tx];
      && Install(s.committed, x) ==
        Complete(s.committed, x.delivery.who, x.delivery.op.opId, x.decision, x.delivery.clock)
      && Install(s.committed, x) == Deliver(s.committed, x.delivery)
      && Admissible(s.committed, x.delivery.who, x.decision) && Keyed(s.committed)
      && Install(s.committed, x) == Run(t, s.serial + [x.delivery])
  {
    var x := s.active[tx];
    assert PendingSound(t, s, x);
    RunValid(t, s.serial);
    DecideAdmissible(s.committed, x.delivery.who, x.delivery.op, x.delivery.clock.transaction);
    InstallIsComplete(s.committed, x);
    RunStep(t, s.serial, x.delivery);
  }

  lemma WriteSurvivesWrite(t: Tables, s: System, next: System, x: Pending, other: Pending)
    requires PendingSound(t, s, other) && Writes(other.decision) && Writes(x.decision) && Apart(other, x)
    requires Keyed(s.committed) && Admissible(s.committed, x.delivery.who, x.decision)
    requires next.committed == Complete(s.committed, x.delivery.who, x.delivery.op.opId, x.decision, x.delivery.clock)
    requires |next.serial| >= |s.serial|
    ensures PendingSound(t, next, other)
  {
    WriteStable(s.committed, other.delivery.who, other.delivery.op, other.delivery.clock.transaction,
                x.delivery.who, x.delivery.op.opId, x.decision, x.delivery.clock);
    BalanceStable(s.committed, other.decision, other.delivery.clock.transaction,
                  x.delivery.who, x.delivery.op.opId, x.decision, x.delivery.clock);
  }

  lemma RejectSurvivesWrite(t: Tables, s: System, next: System, x: Pending, other: Pending)
    requires PendingSound(t, s, other) && !Writes(other.decision) && !x.decision.Abandon? && Apart(other, x)
    requires next.committed == Complete(s.committed, x.delivery.who, x.delivery.op.opId, x.decision, x.delivery.clock)
    requires s.serial <= next.serial
    ensures PendingSound(t, next, other)
  {
    assert next.serial[..other.mark] == s.serial[..other.mark];
  }

  lemma PendingSurvivesWrite(t: Tables, s: System, next: System, x: Pending, other: Pending)
    requires PendingSound(t, s, other) && Writes(x.decision) && Apart(other, x)
    requires Keyed(s.committed) && Admissible(s.committed, x.delivery.who, x.decision)
    requires next.committed == Complete(s.committed, x.delivery.who, x.delivery.op.opId, x.decision, x.delivery.clock)
    requires next.serial == s.serial + [x.delivery]
    ensures PendingSound(t, next, other)
  {
    if Writes(other.decision) {
      WriteSurvivesWrite(t, s, next, x, other);
    } else {
      RejectSurvivesWrite(t, s, next, x, other);
    }
  }

  /** Nothing but the committing transaction leaves, and it frees the counter. */
  lemma OthersStay(s: System, next: System, tx: nat)
    requires AllApart(s)
    requires CounterHeld(s) && tx in s.active && s.active[tx].cursor.Some?
    requires next.active == s.active - {tx} && next.holder == Released(s, tx)
    ensures AllApart(next)
    ensures CounterHeld(next)
  {
    forall x, y | x in next.active && y in next.active && x != y ensures Apart(next.active[x], next.active[y]) {
      assert Apart(s.active[x], s.active[y]);
    }
  }

  lemma MarksBounded(t: Tables, s: System)
    requires Sound(t, s)
    ensures forall y | y in s.active :: s.active[y].mark <= |s.serial|
  {
    forall y | y in s.active ensures s.active[y].mark <= |s.serial| {
      assert PendingSound(t, s, s.active[y]);
    }
  }

  /** Marks never exceed the serial order, so appending to it moves none. */
  lemma NoShift(active: map<nat, Pending>, tx: nat, k: nat)
    requires forall y | y in active :: active[y].mark <= k
    ensures (map y | y in active && y != tx :: Shift(active[y], k)) == active - {tx}
  {
  }

  lemma WriteShape(s: System, tx: nat)
    requires Enabled(s, Commits(tx)) && Writes(s.active[tx].decision)
    requires forall y | y in s.active :: s.active[y].mark <= |s.serial|
    ensures After(s, Commits(tx)).active == s.active - {tx}
    ensures After(s, Commits(tx)).serial == s.serial + [s.active[tx].delivery]
  {
    NoShift(s.active, tx, |s.serial|);
    InsertAtEnd(s.serial, s.active[tx].delivery);
  }

  lemma InsertAtEnd(ds: seq<Delivery>, d: Delivery)
    ensures InsertAt(ds, |ds|, d) == ds + [d]
  {
  }

  lemma AllSurviveWrite(t: Tables, s: System, next: System, tx: nat)
    requires AllPendingSound(t, s) && AllApart(s) && tx in s.active && Writes(s.active[tx].decision)
    requires Keyed(s.committed) && Admissible(s.committed, s.active[tx].delivery.who, s.active[tx].decision)
    requires var x := s.active[tx];
      next.committed == Complete(s.committed, x.delivery.who, x.delivery.op.opId, x.decision, x.delivery.clock)
    requires next.serial == s.serial + [s.active[tx].delivery] && next.active == s.active - {tx}
    ensures AllPendingSound(t, next)
  {
    forall y | y in next.active ensures PendingSound(t, next, next.active[y]) {
      PendingSurvivesWrite(t, s, next, s.active[tx], s.active[y]);
    }
  }

  lemma WriteKeepsPendings(t: Tables, s: System, tx: nat)
    requires Valid(t) && Sound(t, s) && Enabled(s, Commits(tx)) && Writes(s.active[tx].decision)
    ensures AllPendingSound(t, After(s, Commits(tx))) && After(s, Commits(tx)).active == s.active - {tx}
  {
    MarksBounded(t, s);
    WriteShape(s, tx);
    CommittedWrite(t, s, tx);
    AllSurviveWrite(t, s, After(s, Commits(tx)), tx);
  }

  lemma WriteKeepsSerial(t: Tables, s: System, tx: nat)
    requires Valid(t) && Sound(t, s) && Enabled(s, Commits(tx)) && Writes(s.active[tx].decision)
    ensures Serial(t, After(s, Commits(tx)))
  {
    var d := s.active[tx].delivery;
    CommittedWrite(t, s, tx);
    InsertAtEnd(s.serial, d);
    forall e | e in s.serial + [d] ensures e.Key() in Install(s.committed, s.active[tx]).syncOps {
      assert e in s.serial || e == d;
    }
  }

  lemma CommitWriteKeepsSound(t: Tables, s: System, tx: nat)
    requires Valid(t) && Sound(t, s) && Enabled(s, Commits(tx)) && Writes(s.active[tx].decision)
    ensures Sound(t, After(s, Commits(tx)))
  {
    WriteKeepsSerial(t, s, tx);
    WriteKeepsPendings(t, s, tx);
    OthersStay(s, After(s, Commits(tx)), tx);
  }

  lemma CommittedReject(t: Tables, s: System, tx: nat)
    requires Sound(t, s) && tx in s.active && !Writes(s.active[tx].decision)
    ensures var x := s.active[tx];
      var row := OutcomeRow(x.delivery.who, ResultWith(x.delivery.op.opId, x.decision, None), x.delivery.clock);
      && x.mark <= |s.serial|
      && Install(s.committed, x) == WithOutcome(s.committed, x.delivery.Key(), row)
      && Install(s.committed, x) == Run(t, InsertAt(s.serial, x.mark, x.delivery))
  {
    var x := s.active[tx];
    assert PendingSound(t, s, x);
    RejectInPlace(t, s.serial, x.mark, x.delivery);
  }

  /** What another rejected operation saw before deciding may gain the outcome
      of this one, which does not concern it. */
  lemma SeenSurvives(t: Tables, ds: seq<Delivery>, k: nat, d: Delivery, m: nat, other: Delivery)
    requires k < m <= |ds| && other.Key() != d.Key() && forall e | e in ds :: e.Key() != d.Key()
    requires !d.fate.Dropped? && NIL_UUID !in {d.who.userId, d.who.deviceId, d.op.opId}
    requires CanReserve(Run(t, ds[..k]), d.who, d.op.opId)
    requires Decide(Run(t, ds[..k]), d.who, d.op, d.clock.transaction).Reject?
    requires CanReserve(Run(t, ds[..m]), other.who, other.op.opId)
    ensures var seen := Run(t, InsertAt(ds, k, d)[..m + 1]);
      && CanReserve(seen, other.who, other.op.opId)
      && Decide(seen, other.who, other.op, other.clock.transaction) ==
         Decide(Run(t, ds[..m]), other.who, other.op, other.clock.transaction)
  {
    var decision := Decide(Run(t, ds[..k]), d.who, d.op, d.clock.transaction);
    var row := OutcomeRow(d.who, ResultWith(d.op.opId, decision, None), d.clock);
    assert InsertAt(ds, k, d)[..m + 1] == InsertAt(ds[..m], k, d);
    assert ds[..m][..k] == ds[..k];
    RejectInPlace(t, ds[..m], k, d);
    var seen := Run(t, ds[..m]);
    DecideIgnoresOutcomes(seen, seen.syncOps[d.Key() := row], other.who, other.op, other.clock.transaction);
  }

  lemma RejectSurvivesReject(t: Tables, s: System, next: System, x: Pending, other: Pending, row: SyncOperation)
    requires PendingSound(t, s, x) && PendingSound(t, s, other) && !Writes(x.decision) && !Writes(other.decision)
    requires other.delivery.Key() != x.delivery.Key() && forall d | d in s.serial :: d.Key() != x.delivery.Key()
    requires next.serial == InsertAt(s.serial, x.mark, x.delivery)
    requires next.committed == WithOutcome(s.committed, x.delivery.Key(), row)
    ensures PendingSound(t, next, Shift(other, x.mark))
  {
    if other.mark <= x.mark {
      assert next.serial[..other.mark] == s.serial[..other.mark];
    } else {
      SeenSurvives(t, s.serial, x.mark, x.delivery, other.mark, other.delivery);
    }
  }

  lemma WriteSurvivesReject(t: Tables, s: System, next: System, x: Pending, other: Pending, row: SyncOperation)
    requires PendingSound(t, s, other) && Writes(other.decision)
    requires other.delivery.Key() != x.delivery.Key() && x.mark <= |s.serial|
    requires next.serial == InsertAt(s.serial, x.mark, x.delivery)
    requires next.committed == WithOutcome(s.committed, x.delivery.Key(), row)
    ensures PendingSound(t, next, Shift(other, x.mark))
  {
    var d := other.delivery;
    DecideIgnoresOutcomes(s.committed, next.committed.syncOps, d.who, d.op, d.clock.transaction);
  }

  lemma PendingSurvivesReject(t: Tables, s: System, tx: nat, y: nat)
    requires Sound(t, s) && tx in s.active && !Writes(s.active[tx].decision) && y in s.active && y != tx
    ensures PendingSound(t, After(s, Commits(tx)), Shift(s.active[y], s.active[tx].mark))
  {
    var x, other := s.active[tx], s.active[y];
    var next := After(s, Commits(tx));
    var row := OutcomeRow(x.delivery.who, ResultWith(x.delivery.op.opId, x.decision, None), x.delivery.clock);
    CommittedReject(t, s, tx);
    assert PendingSound(t, s, x) && PendingSound(t, s, other) && Apart(other, x);
    if Writes(other.decision) {
      WriteSurvivesReject(t, s, next, x, other, row);
    } else {
      RejectSurvivesReject(t, s, next, x, other, row);
    }
  }

  lemma RejectKeepsPendings(t: Tables, s: System, tx: nat)
    requires Sound(t, s) && tx in s.active && !Writes(s.active[tx].decision)
    ensures AllPendingSound(t, After(s, Commits(tx)))
  {
    var next := After(s, Commits(tx));
    var k := s.active[tx].mark;
    CommittedReject(t, s, tx);
    forall y | y in next.active ensures PendingSound(t, next, next.active[y]) {
      assert next.active[y] == Shift(s.active[y], k);
      PendingSurvivesReject(t, s, tx, y);
    }
  }

  /** Of the other transactions only the marks change. */
  lemma OthersKept(s: System, next: System, tx: nat, k: nat)
    requires AllApart(s)
    requires CounterHeld(s) && tx in s.active && !Writes(s.active[tx].decision)
    requires next.active == map y | y in s.active && y != tx :: Shift(s.active[y], k)
    requires next.holder == Released(s, tx) && next.committed.lastSeq == s.committed.lastSeq
    ensures AllApart(next)
    ensures CounterHeld(next)
  {
    forall a, b | a in next.active && b in next.active && a != b ensures Apart(next.active[a], next.active[b]) {
      assert Apart(s.active[a], s.active[b]);
    }
  }

  lemma RejectKeepsSerial(t: Tables, s: System, tx: nat)
    requires Sound(t, s) && tx in s.active && !Writes(s.active[tx].decision)
    ensures Serial(t, After(s, Commits(tx)))
  {
    var x := s.active[tx];
    CommittedReject(t, s, tx);
    forall d | d in InsertAt(s.serial, x.mark, x.delivery) ensures d.Key() in Install(s.committed, x).syncOps {
      assert d in s.serial || d == x.delivery;
    }
  }

  lemma CommitRejectKeepsSound(t: Tables, s: System, tx: nat)
    requires Sound(t, s) && tx in s.active && !Writes(s.active[tx].decision)
    ensures Sound(t, After(s, Commits(tx)))
  {
    RejectKeepsSerial(t, s, tx);
    RejectKeepsPendings(t, s, tx);
    MarksBounded(t, s);
    OthersKept(s, After(s, Commits(tx)), tx, s.active[tx].mark);
  }

  lemma StepKeepsSound(t: Tables, s: System, e: Event)
    requires Valid(t) && Sound(t, s)
    ensures Sound(t, After(s, e))
  {
    if Enabled(s, e) {
      match e
      case Decides(tx, d) => DecidesKeepsSound(t, s, tx, d);
      case Allocates(tx) => AllocatesKeepsSound(t, s, tx);
      case Aborts(tx) => AbortsKeepsSound(t, s, tx);
      case Commits(tx) =>
        if Writes(s.active[tx].decision) {
          CommitWriteKeepsSound(t, s, tx);
        } else {
          CommitRejectKeepsSound(t, s, tx);
        }
    }
  }

  lemma {:induction false} ExecutionSound(t: Tables, es: seq<Event>)
    requires Valid(t)
    ensures Sound(t, Execute(Initial(t), es))
  {
    if es == [] {
      assert Run(t, []) == t;
    } else {
      ExecutionSound(t, es[..|es| - 1]);
      StepKeepsSound(t, Execute(Initial(t), es[..|es| - 1]), es[|es| - 1]);
    }
  }

  // ----- Serializability -----

  /** Every delivery in the serial order was decided in the execution. */
  ghost predicate Submitted(es: seq<Event>, d: Delivery) {
    exists i | 0 <= i < |es| :: es[i].Decides? && es[i].delivery == d
  }

  predicate OncePerKey(ds: seq<Delivery>) {
    forall i, j | 0 <= i < j < |ds| :: ds[i].Key() != ds[j].Key()
  }

  lemma InsertKeepsOnce(ds: seq<Delivery>, k: nat, d: Delivery)
    requires k <= |ds| && OncePerKey(ds) && forall e | e in ds :: e.Key() != d.Key()
    ensures OncePerKey(InsertAt(ds, k, d)) && forall e | e in InsertAt(ds, k, d) :: e in ds || e == d
  {
    var after := InsertAt(ds, k, d);
    forall i, j | 0 <= i < j < |after| ensures after[i].Key() != after[j].Key() {
      assert i < k ==> after[i] == ds[i];
      assert i > k ==> after[i] == ds[i - 1];
      assert j < k ==> after[j] == ds[j];
      assert j > k ==> after[j] == ds[j - 1];
    }
  }

  /** Committed and open operations were submitted, each key once. */
  ghost predicate Traced(es: seq<Event>, s: System) {
    && OncePerKey(s.serial)
    && (forall d | d in s.serial :: Submitted(es, d))
    && (forall x | x in s.active :: Submitted(es, s.active[x].delivery))
  }

  lemma StillUncommitted(t: Tables, s: System, tx: nat)
    requires Sound(t, s) && tx in s.active
    ensures forall d | d in s.serial :: d.Key() != s.active[tx].delivery.Key()
  {
    assert PendingSound(t, s, s.active[tx]);
  }

  lemma StepTraced(s: System, es: seq<Event>, e: Event)
    requires Traced(es, s)
    requires e.Commits? && Enabled(s, e) ==> forall d | d in s.serial :: d.Key() != s.active[e.tx].delivery.Key()
    ensures Traced(es + [e], After(s, e))
  {
    forall d | Submitted(es, d) ensures Submitted(es + [e], d) {
      var i :| 0 <= i < |es| && es[i].Decides? && es[i].delivery == d;
      assert (es + [e])[i] == es[i];
    }
    if Enabled(s, e) {
      match e
      case Decides(_, d) => assert (es + [e])[|es|] == e && Submitted(es + [e], d);
      case Commits(tx) => InsertKeepsOnce(s.serial, Position(s, tx), s.active[tx].delivery);
      case _ =>
    }
  }

  lemma TracedOneMore(t: Tables, s: System, es: seq<Event>, e: Event)
    requires Sound(t, s) && Traced(es, s)
    ensures Traced(es + [e], After(s, e))
  {
    if e.Commits? && Enabled(s, e) {
      StillUncommitted(t, s, e.tx);
    }
    StepTraced(s, es, e);
  }

  lemma ExecuteLast(s: System, es: seq<Event>)
    requires es != []
    ensures Execute(s, es) == After(Execute(s, es[..|es| - 1]), es[|es| - 1])
  {
  }

  lemma TracedNext(t: Tables, front: seq<Event>, e: Event)
    requires Valid(t) && Traced(front, Execute(Initial(t), front))
    ensures Traced(front + [e], After(Execute(Initial(t), front), e))
  {
    ExecutionSound(t, front);
    TracedOneMore(t, Execute(Initial(t), front), front, e);
  }

  lemma {:induction false} SerialOrigin(t: Tables, es: seq<Event>)
    requires Valid(t)
    ensures Traced(es, Execute(Initial(t), es))
  {
    if es != [] {
      var front, e := es[..|es| - 1], es[|es| - 1];
      SerialOrigin(t, front);
      TracedNext(t, front, e);
      ExecuteLast(Initial(t), es);
      assert front + [e] == es;
    }
  }

  /** Any interleaving of deciding, allocating, committing and aborting leaves
      the tables of a run that executes each committed operation once, one
      after another. The invariant of runs therefore holds in every committed
      state, and all theorems about runs apply to it. */
  lemma Serializable(t: Tables, es: seq<Event>)
    requires Valid(t)
    ensures var s := Execute(Initial(t), es);
      && s.committed == Run(t, s.serial) && Valid(s.committed)
      && OncePerKey(s.serial) && forall d | d in s.serial :: Submitted(es, d)
  {
    ExecutionSound(t, es);
    SerialOrigin(t, es);
    RunValid(t, Execute(Initial(t), es).serial);
  }

  // ----- Cursors in commit order -----

  lemma LogGrowsStep(t: Tables, s: System, e: Event)
    requires Valid(t) && Sound(t, s)
    ensures s.committed.changeLog <= After(s, e).committed.changeLog
    ensures e.Commits? && Enabled(s, e) && Writes(s.active[e.tx].decision) ==>
      var log := After(s, e).committed.changeLog;
      |log| == |s.committed.changeLog| + 1 && log[|log| - 1].cursor == |log|
  {
    if e.Commits? && Enabled(s, e) && Writes(s.active[e.tx].decision) {
      RunValid(t, s.serial);
    }
  }

  lemma {:induction false} LogGrows(t: Tables, es: seq<Event>, n: nat)
    requires Valid(t) && n <= |es|
    ensures Execute(Initial(t), es[..n]).committed.changeLog <= Execute(Initial(t), es).committed.changeLog
  {
    if n == |es| {
      assert es[..n] == es;
    } else {
      var front := es[..|es| - 1];
      LogGrows(t, front, n);
      assert front[..n] == es[..n];
      ExecutionSound(t, front);
      LogGrowsStep(t, Execute(Initial(t), front), es[|es| - 1]);
    }
  }

  /** The log as a reader finds it at one instant of an execution. */
  ghost function LogAt(t: Tables, es: seq<Event>, n: nat): seq<ChangeLogEntry>
    requires n <= |es|
  {
    Execute(Initial(t), es[..n]).committed.changeLog
  }

  /** At every instant the committed cursors are exactly 1, 2, ..., up to the
      committed counter, and an entry once visible stays in its place: no
      reader ever sees n + 1 without n. */
  lemma CursorsInCommitOrder(t: Tables, es: seq<Event>, m: nat, n: nat)
    requires Valid(t) && m <= n <= |es|
    ensures Numbered(LogAt(t, es, n)) && LogAt(t, es, m) <= LogAt(t, es, n)
    ensures Execute(Initial(t), es[..n]).committed.lastSeq == |LogAt(t, es, n)|
  {
    Serializable(t, es[..n]);
    var log := LogAt(t, es, n);
    assert LogNumbered(Execute(Initial(t), es[..n]).committed);
    forall i | 0 <= i < |log| ensures log[i].cursor == i + 1 {
      assert EntrySound(log[i], i + 1);
    }
    LogGrows(t, es[..n], m);
    assert es[..n][..m] == es[..m];
  }

  /** A client that pulls pages while other transactions allocate, commit and
      abort in between, until `has_more` is false, has received every entry
      of its account that was visible at its last request, once and in order. */
  lemma ConcurrentFeedComplete(t: Tables, es: seq<Event>, requests: seq<nat>, userId: Uuid, after: int, max: nat)
    requires Valid(t) && requests != [] && max > 0
    requires forall i, j | 0 <= i <= j < |requests| :: requests[i] <= requests[j] <= |es|
    ensures var logs := seq(|requests|, i requires 0 <= i < |requests| => LogAt(t, es, requests[i]));
      !Follow(logs, userId, after, max).1.hasMore ==>
        Follow(logs, userId, after, max).0 == UserLog(LogAt(t, es, requests[|requests| - 1]), userId, after)
  {
    var logs := seq(|requests|, i requires 0 <= i < |requests| => LogAt(t, es, requests[i]));
    forall i, j | 0 <= i <= j < |logs| ensures logs[i] <= logs[j] && Numbered(logs[i]) && Numbered(logs[j]) {
      CursorsInCommitOrder(t, es, requests[i], requests[j]);
      CursorsInCommitOrder(t, es, requests[i], requests[i]);
    }
    if !Follow(logs, userId, after, max).1.hasMore {
      FeedComplete(logs, userId, after, max);
    }
  }

  /** Without the counter lock, cursors could be committed out of order, and
      the same client would miss an entry for good. */
  lemma OutOfOrderCommitLosesEntry(first: ChangeLogEntry, second: ChangeLogEntry)
    requires first.cursor == 1 && second.cursor == 2 && first.userId == second.userId
    ensures var logs := [[second], [second, first]];
      && first in UserLog(logs[1], first.userId, 0)
      && !Follow(logs, first.userId, 0, 10).1.hasMore
      && first !in Follow(logs, first.userId, 0, 10).0
  {
    var user := first.userId;
    var early, late := [second], [second, first];
    assert early[..0] == [] && late[..1] == early;
    assert UserLog(early, user, 0) == [second];
    assert UserLog(late, user, 0) == [second, first];
    assert UserLog(early, user, 2) == [];
    assert UserLog(late, user, 2) == [];
    var logs := [early, late];
    assert logs[..1] == [early] && logs[..1][..0] == [];
    assert Follow([], user, 0, 10) == ([], Page([], 0, true));
    assert PageOf(early, user, 0, 10) == Page([second], 2, false);
    assert Follow([early], user, 0, 10) == ([] + [second], Page([second], 2, false));
    assert PageOf(late, user, 2, 10) == Page([], 2, false);
  }
}
