/** Runs of deliveries: clients resend operations, answers get lost, attempts
    are rolled back, and payloads may even differ between repeats. */
module Runs {
  import opened Prelude
  import opened Schema
  import opened Ledger
  import opened SyncPolicy
  import opened Invariants

  /** How one delivery ends: committed and answered, committed with the answer
      lost, or rolled back by a failure. */
  datatype Fate = Answered | Silent | Dropped

  datatype Delivery = Delivery(who: Identity, op: Operation, clock: Clock, fate: Fate)
  {
    function Key(): OperationKey {
      OperationKey(who.deviceId, op.opId)
    }
  }

  ghost function Deliver(t: Tables, d: Delivery): Tables {
    var answer := Process(t, d.who, d.op, d.clock);
    if d.fate.Dropped? || answer.Error? then t else answer.tables
  }

  /** What the client receives, if anything. */
  ghost function Reply(t: Tables, d: Delivery): Option<OperationResult> {
    var answer := Process(t, d.who, d.op, d.clock);
    if d.fate.Answered? && answer.Done? then Some(answer.result) else None
  }

  /** The delivery's transaction commits, as a first application or a replay. */
  ghost predicate Committed(t: Tables, d: Delivery) {
    !d.fate.Dropped? && Process(t, d.who, d.op, d.clock).Done?
  }

  ghost function Run(t: Tables, ds: seq<Delivery>): Tables {
    if ds == [] then t else Deliver(Run(t, ds[..|ds| - 1]), ds[|ds| - 1])
  }

  ghost predicate CommittedAt(t: Tables, ds: seq<Delivery>, i: nat)
    requires i < |ds|
  {
    Committed(Run(t, ds[..i]), ds[i])
  }

  // ----- Runs stay valid, and outcomes are permanent -----

  lemma {:induction false} RunValid(t: Tables, ds: seq<Delivery>)
    requires Valid(t)
    ensures Valid(Run(t, ds)) && Run(t, ds).devices == t.devices
  {
    if ds != [] {
      var before := Run(t, ds[..|ds| - 1]);
      var d := ds[|ds| - 1];
      RunValid(t, ds[..|ds| - 1]);
      ProcessKeepsValid(before, d.who, d.op, d.clock);
    }
  }

  /** A committed delivery leaves its key with an outcome; no delivery removes
      or changes an outcome, and no delivery adds any other key. */
  lemma DeliverOutcomes(t: Tables, d: Delivery)
    requires Valid(t)
    ensures forall key | key in t.syncOps ::
      key in Deliver(t, d).syncOps && Deliver(t, d).syncOps[key] == t.syncOps[key]
    ensures forall key | key in Deliver(t, d).syncOps :: key in t.syncOps || (key == d.Key() && Committed(t, d))
    ensures Committed(t, d) ==>
      && d.Key() in Deliver(t, d).syncOps
      && Deliver(t, d).syncOps[d.Key()].response == Encoded(Process(t, d.who, d.op, d.clock).result)
    ensures d.Key() in t.syncOps ==> Deliver(t, d) == t
  {
  }

  /** A delivery either changes nothing or completes one admissible decision. */
  lemma DeliverCases(t: Tables, d: Delivery) returns (decision: Decision)
    requires Keyed(t)
    ensures decision.Abandon? ==> Deliver(t, d) == t
    ensures !decision.Abandon? ==>
      && d.Key() !in t.syncOps && CanReserve(t, d.who, d.op.opId) && d.op.opId != NIL_UUID
      && Committed(t, d) && decision == Decide(t, d.who, d.op, d.clock.transaction)
      && Admissible(t, d.who, decision)
      && Deliver(t, d) == Complete(t, d.who, d.op.opId, decision, d.clock)
  {
    if !d.fate.Dropped? && NIL_UUID !in {d.who.userId, d.who.deviceId, d.op.opId} && CanReserve(t, d.who, d.op.opId) {
      DecideAdmissible(t, d.who, d.op, d.clock.transaction);
      decision := Decide(t, d.who, d.op, d.clock.transaction);
    } else {
      decision := Abandon;
    }
  }

  /** A first delivery that is not dropped completes its decision. */
  lemma DeliverDecision(t: Tables, d: Delivery)
    requires !d.fate.Dropped? && NIL_UUID !in {d.who.userId, d.who.deviceId, d.op.opId}
    requires CanReserve(t, d.who, d.op.opId)
    ensures var decision := Decide(t, d.who, d.op, d.clock.transaction);
      !decision.Abandon? ==> Deliver(t, d) == Complete(t, d.who, d.op.opId, decision, d.clock)
  {
  }

  lemma RunStep(t: Tables, ds: seq<Delivery>, d: Delivery)
    ensures Run(t, ds + [d]) == Deliver(Run(t, ds), d)
  {
    assert (ds + [d])[..|ds|] == ds;
  }

  lemma {:induction false} RunConcat(t: Tables, a: seq<Delivery>, b: seq<Delivery>)
    ensures Run(t, a + b) == Run(Run(t, a), b)
  {
    if b == [] {
      assert a + b == a;
    } else {
      var front, last := b[..|b| - 1], b[|b| - 1];
      RunConcat(t, a, front);
      RunStep(t, a + front, last);
      RunStep(Run(t, a), front, last);
      assert a + b == (a + front) + [last] && b == front + [last];
    }
  }

  /** A run, cut at one of its deliveries. */
  lemma RunSplit(t: Tables, ds: seq<Delivery>, i: nat)
    requires Valid(t) && i < |ds|
    ensures Run(t, ds) == Run(Deliver(Run(t, ds[..i]), ds[i]), ds[i + 1..])
    ensures Valid(Run(t, ds[..i])) && Valid(Deliver(Run(t, ds[..i]), ds[i]))
  {
    var front, rest := ds[..i], ds[i + 1..];
    assert ds == (front + [ds[i]]) + rest;
    RunConcat(t, front + [ds[i]], rest);
    RunStep(t, front, ds[i]);
    RunValid(t, front);
    RunValid(t, front + [ds[i]]);
  }

  lemma {:induction false} OutcomesPermanent(t: Tables, ds: seq<Delivery>)
    requires Valid(t)
    ensures forall key | key in t.syncOps :: key in Run(t, ds).syncOps && Run(t, ds).syncOps[key] == t.syncOps[key]
  {
    if ds != [] {
      var front := ds[..|ds| - 1];
      OutcomesPermanent(t, front);
      RunValid(t, front);
      DeliverOutcomes(Run(t, front), ds[|ds| - 1]);
    }
  }

  /** A key that no earlier delivery carries is still without an outcome. */
  lemma KeyStillFree(t: Tables, ds: seq<Delivery>, i: nat)
    requires Valid(t) && i < |ds| && ds[i].Key() !in t.syncOps
    requires forall j | 0 <= j < i :: ds[j].Key() != ds[i].Key()
    ensures ds[i].Key() !in Run(t, ds[..i]).syncOps
  {
    KeyRecorded(t, ds[..i], ds[i].Key());
    assert forall j | 0 <= j < i :: ds[..i][j] == ds[j];
  }

  // ----- Exactly once -----

  /** Delivery i is the first committed one of its key. */
  ghost predicate First(t: Tables, ds: seq<Delivery>, i: nat)
    requires i < |ds|
  {
    && ds[i].Key() !in t.syncOps
    && CommittedAt(t, ds, i)
    && forall j | 0 <= j < i :: ds[j].Key() == ds[i].Key() ==> !CommittedAt(t, ds, j)
  }

  /** The run that keeps only those. */
  ghost function Firsts(t: Tables, ds: seq<Delivery>): seq<Delivery> {
    if ds == [] then []
    else Firsts(t, ds[..|ds| - 1]) + (if First(t, ds, |ds| - 1) then [ds[|ds| - 1]] else [])
  }

  lemma PrefixCommitted(t: Tables, ds: seq<Delivery>, n: nat, j: nat)
    requires j < n <= |ds|
    ensures CommittedAt(t, ds[..n], j) == CommittedAt(t, ds, j)
  {
    assert ds[..n][..j] == ds[..j];
  }

  lemma CommittedInFront(t: Tables, ds: seq<Delivery>, n: nat, key: OperationKey)
    requires n <= |ds|
    ensures (exists j | 0 <= j < n :: ds[..n][j].Key() == key && CommittedAt(t, ds[..n], j)) <==>
            (exists j | 0 <= j < n :: ds[j].Key() == key && CommittedAt(t, ds, j))
  {
    forall j | 0 <= j < n ensures CommittedAt(t, ds[..n], j) == CommittedAt(t, ds, j) && ds[..n][j] == ds[j] {
      PrefixCommitted(t, ds, n, j);
    }
  }

  /** A key has an outcome after a run exactly when it had one before it or
      some delivery of the run committed it. */
  lemma {:induction false} KeyRecorded(t: Tables, ds: seq<Delivery>, key: OperationKey)
    requires Valid(t)
    ensures key in Run(t, ds).syncOps <==>
      key in t.syncOps || exists j | 0 <= j < |ds| :: ds[j].Key() == key && CommittedAt(t, ds, j)
  {
    if ds != [] {
      var n := |ds| - 1;
      var front := ds[..n];
      KeyRecorded(t, front, key);
      RunValid(t, front);
      DeliverOutcomes(Run(t, front), ds[n]);
      CommittedInFront(t, ds, n, key);
      assert CommittedAt(t, ds, n) == Committed(Run(t, front), ds[n]);
    }
  }

  /** Duplicates, reordered repeats, altered payloads and failed attempts leave
      no trace: the tables are those of the run that keeps only the first
      committed delivery of each key. */
  lemma {:induction false} ExactlyOnce(t: Tables, ds: seq<Delivery>)
    requires Valid(t)
    ensures Run(t, ds) == Run(t, Firsts(t, ds))
  {
    if ds != [] {
      var n := |ds| - 1;
      var front := ds[..n];
      var before := Run(t, front);
      ExactlyOnce(t, front);
      RunValid(t, front);
      KeyRecorded(t, front, ds[n].Key());
      DeliverOutcomes(before, ds[n]);
      forall j | 0 <= j < n ensures CommittedAt(t, front, j) == CommittedAt(t, ds, j) {
        PrefixCommitted(t, ds, n, j);
      }
      assert forall j | 0 <= j < n :: front[j] == ds[j];
      if First(t, ds, n) {
        RunStep(t, Firsts(t, front), ds[n]);
      } else {
        assert Firsts(t, ds) == Firsts(t, front);
        assert ds[n].Key() in before.syncOps || !Committed(before, ds[n]);
      }
    }
  }

  /** Every later delivery of a committed key, whatever its payload, gets the
      first outcome if its account owns the device, and an error otherwise. */
  lemma RepeatsGetFirstOutcome(t: Tables, ds: seq<Delivery>, i: nat, j: nat)
    requires Valid(t) && i < j < |ds|
    requires CommittedAt(t, ds, i) && ds[j].Key() == ds[i].Key() && ds[j].fate.Answered?
    requires ds[j].who.userId != NIL_UUID
    ensures var first := Process(Run(t, ds[..i]), ds[i].who, ds[i].op, ds[i].clock).result;
      Reply(Run(t, ds[..j]), ds[j]) == if ds[j].who.userId == ds[i].who.userId then Some(first) else None
  {
    var before, earlier := Run(t, ds[..i]), ds[..j];
    assert earlier[..i] == ds[..i] && earlier[i] == ds[i];
    RunSplit(t, earlier, i);
    RunValid(t, earlier);
    DeliverOutcomes(before, ds[i]);
    ProcessKeepsValid(before, ds[i].who, ds[i].op, ds[i].clock);
    OutcomesPermanent(Deliver(before, ds[i]), earlier[i + 1..]);
    var at := Run(t, earlier);
    assert OutcomeSound(at, ds[i].Key());
    ProcessKeepsValid(at, ds[j].who, ds[j].op, ds[j].clock);
  }

  /** The reasons that stand for a violated primary key are part of the
      protocol, but a violated primary key aborts the transaction, so they are
      never the outcome of an operation, stored or returned. */
  lemma {:induction false} KeyViolationsNeverStored(devices: map<Uuid, Uuid>, ds: seq<Delivery>, key: OperationKey)
    requires key in Run(EmptyTables(devices), ds).syncOps
    ensures Run(EmptyTables(devices), ds).syncOps[key].reason !in {Some(MovementConflict), Some(ProductConflict)}
    ensures !Run(EmptyTables(devices), ds).syncOps[key].status.Processing?
  {
    EmptyValid(devices);
    RunValid(EmptyTables(devices), ds);
    assert OutcomeSound(Run(EmptyTables(devices), ds), key);
  }

  // ----- 64-bit balances -----

  /** In every state a run reaches, while a product has fewer than 2^32 ledger
      rows of its own: its stored balance, that balance after one more delta,
      and the distance of any count from it fit in 64 bits. */
  lemma BalancesFit(t: Tables, ds: seq<Delivery>, id: Uuid, delta: int32, counted: int32)
    requires Valid(t) && counted >= 0
    requires var next := Run(t, ds);
      id in next.products && RowCount(next.movements, next.products[id].userId, id) < ROW_LIMIT
    ensures var next := Run(t, ds);
      && id in next.balances
      && FitsInt64(next.balances[id].qty) && FitsInt64(next.balances[id].qty + delta)
      && FitsInt64(counted - next.balances[id].qty)
  {
    RunValid(t, ds);
    var next := Run(t, ds);
    NoOverflow(next.movements, next.products[id].userId, id, delta, counted);
  }

  /** So an accepted movement, which the product's row count then includes,
      never overflows the projection: the sum that the increment computes is
      the stored one plus the decided delta, and both fit. */
  lemma IncrementFits(t: Tables, d: Delivery)
    requires Valid(t) && Committed(t, d) && d.Key() !in t.syncOps
    requires Decide(t, d.who, d.op, d.clock.transaction).WriteMovement?
    requires var m := Decide(t, d.who, d.op, d.clock.transaction).movement;
      RowCount(t.movements, m.userId, m.productId) < ROW_LIMIT
    ensures var m := Decide(t, d.who, d.op, d.clock.transaction).movement;
      && m.productId in t.balances && m.productId in Deliver(t, d).balances
      && FitsInt64(t.balances[m.productId].qty)
      && Deliver(t, d).balances[m.productId].qty == t.balances[m.productId].qty + m.delta
      && FitsInt64(Deliver(t, d).balances[m.productId].qty)
  {
    var decision := DeliverCases(t, d);
    var m := Decide(t, d.who, d.op, d.clock.transaction).movement;
    NoOverflow(t.movements, m.userId, m.productId, m.delta, 0);
  }
}
