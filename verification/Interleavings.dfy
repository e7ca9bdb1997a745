/** What the concurrent system can do: transactions wait only for those that
    write the same rows, every run is one of its executions, and two writers
    that share no row may overlap in any order. */
module Interleavings {
  import opened Prelude
  import opened Schema
  import opened SyncPolicy
  import opened Invariants
  import opened Runs
  import opened Concurrency

  // ----- Who waits for whom -----

  /** Both decisions write a row of the same product. */
  predicate SameProductRow(a: Decision, b: Decision) {
    && (a.WriteProduct? || a.WriteMovement?) && (b.WriteProduct? || b.WriteMovement?)
    && ProductOf(a) == ProductOf(b)
  }

  function ProductOf(d: Decision): Uuid
    requires d.WriteProduct? || d.WriteMovement?
  {
    if d.WriteProduct? then d.product.id else d.movement.productId
  }

  predicate SameMovementId(a: Decision, b: Decision) {
    a.WriteMovement? && b.WriteMovement? && a.movement.id == b.movement.id
  }

  /** Both enter the same barcode into the index of active products. */
  predicate SameBarcode(a: Decision, b: Decision) {
    && a.WriteProduct? && b.WriteProduct? && a.product.deletedAt == None && b.product.deletedAt == None
    && a.product.fields.barcode.Some? && a.product.fields.barcode == b.product.fields.barcode
  }

  ghost predicate Collide(x: Pending, d: Delivery, decision: Decision) {
    || (x.delivery.who.deviceId == d.who.deviceId && x.delivery.op.opId == d.op.opId)
    || SameProductRow(x.decision, decision) || SameMovementId(x.decision, decision) || SameBarcode(x.decision, decision)
  }

  /** An operation of a named caller on a registered device, under a key that
      has no outcome, waits exactly for the open transactions that it collides
      with. */
  lemma WaitsExactly(s: System, tx: nat, d: Delivery)
    requires tx !in s.active && !d.fate.Dropped? && NIL_UUID !in {d.who.userId, d.who.deviceId, d.op.opId}
    requires d.who.deviceId in s.committed.devices && s.committed.devices[d.who.deviceId] == d.who.userId
    requires d.Key() !in s.committed.syncOps
    requires !Decide(s.committed, d.who, d.op, d.clock.transaction).Abandon?
    ensures var decision := Decide(s.committed, d.who, d.op, d.clock.transaction);
      Enabled(s, Decides(tx, d)) <==> forall y | y in s.active :: !Collide(s.active[y], d, decision)
  {
    var decision := Decide(s.committed, d.who, d.op, d.clock.transaction);
    forall y | y in s.active
      ensures Collide(s.active[y], d, decision) <==>
        s.active[y].delivery.Key() == d.Key() || !(LocksOf(s.active[y].decision) !! LocksOf(decision))
    {
      LocksAreRows(s.active[y].decision, decision);
    }
  }

  lemma LocksAreRows(a: Decision, b: Decision)
    ensures LocksOf(a) !! LocksOf(b) <==> !SameProductRow(a, b) && !SameMovementId(a, b) && !SameBarcode(a, b)
  {
    if SameProductRow(a, b) {
      assert ProductRow(ProductOf(a)) in LocksOf(a) && ProductRow(ProductOf(b)) in LocksOf(b);
    }
    if SameMovementId(a, b) {
      assert MovementKey(a.movement.id) in LocksOf(a) && MovementKey(b.movement.id) in LocksOf(b);
    }
    if SameBarcode(a, b) {
      assert BarcodeEntry(a.product.fields.barcode.value) in LocksOf(a);
      assert BarcodeEntry(b.product.fields.barcode.value) in LocksOf(b);
    }
  }

  // ----- Every run is an execution -----

  lemma OneMoreEvent(s: System, es: seq<Event>, e: Event)
    ensures Execute(s, es + [e]) == After(Execute(s, es), e)
  {
    assert (es + [e])[..|es|] == es;
  }

  predicate Idle(s: System) {
    s.active == map[] && s.holder == None
  }

  lemma AloneWrites(s: System, d: Delivery, x: Pending)
    requires Idle(s) && Keyed(s.committed) && CanDecide(s, 0, d) && Writes(x.decision)
    requires x.delivery == d && x.decision == Decide(s.committed, d.who, d.op, d.clock.transaction)
    requires x.balance == BalanceRow(s.committed, x.decision, d.clock.transaction)
    requires x.cursor == None && x.mark == |s.serial|
    ensures After(After(After(s, Decides(0, d)), Allocates(0)), Commits(0)) ==
      System(Complete(s.committed, d.who, d.op.opId, x.decision, d.clock), map[], None, s.serial + [d])
  {
    var decided := After(s, Decides(0, d));
    assert decided == s.(active := map[0 := x]);
    var numbered := After(decided, Allocates(0));
    var y := x.(cursor := Some(s.committed.lastSeq + 1));
    assert numbered == s.(active := map[0 := y], holder := Some(0));
    InstallIsComplete(s.committed, y);
    assert s.serial[..|s.serial|] + [d] + s.serial[|s.serial|..] == s.serial + [d];
  }

  lemma AloneRejects(s: System, d: Delivery, x: Pending)
    requires Idle(s) && Keyed(s.committed) && CanDecide(s, 0, d) && x.decision.Reject?
    requires x.delivery == d && x.decision == Decide(s.committed, d.who, d.op, d.clock.transaction)
    requires x.balance == None && x.cursor == None && x.mark == |s.serial|
    ensures After(After(s, Decides(0, d)), Commits(0)) ==
      System(Complete(s.committed, d.who, d.op.opId, x.decision, d.clock), map[], None, s.serial + [d])
  {
    var decided := After(s, Decides(0, d));
    assert decided == s.(active := map[0 := x]);
    assert s.serial[..|s.serial|] + [d] + s.serial[|s.serial|..] == s.serial + [d];
  }

  /** One transaction from its decision to its commit, with nobody else. */
  lemma Alone(s: System, d: Delivery) returns (es: seq<Event>)
    requires Keyed(s.committed) && Idle(s)
    ensures Idle(Execute(s, es)) && Execute(s, es).committed == Deliver(s.committed, d)
  {
    var decision := DeliverCases(s.committed, d);
    if decision.Abandon? {
      es := [];
    } else {
      var x := Pending(d, decision, BalanceRow(s.committed, decision, d.clock.transaction), None, |s.serial|);
      OneMoreEvent(s, [], Decides(0, d));
      if Writes(decision) {
        AloneWrites(s, d, x);
        es := [Decides(0, d), Allocates(0), Commits(0)];
        assert es == ([] + [Decides(0, d)] + [Allocates(0)]) + [Commits(0)];
        OneMoreEvent(s, [] + [Decides(0, d)], Allocates(0));
        OneMoreEvent(s, [] + [Decides(0, d)] + [Allocates(0)], Commits(0));
      } else {
        AloneRejects(s, d, x);
        es := [Decides(0, d), Commits(0)];
        assert es == ([] + [Decides(0, d)]) + [Commits(0)];
        OneMoreEvent(s, [] + [Decides(0, d)], Commits(0));
      }
    }
  }

  lemma {:induction false} ExecuteConcat(s: System, a: seq<Event>, b: seq<Event>)
    ensures Execute(s, a + b) == Execute(Execute(s, a), b)
  {
    if b == [] {
      assert a + b == a;
    } else {
      var front := b[..|b| - 1];
      ExecuteConcat(s, a, front);
      assert a + b == (a + front) + [b[|b| - 1]];
      OneMoreEvent(s, a + front, b[|b| - 1]);
    }
  }

  /** Whatever a run does, some execution does as well. With serializability:
      the executions commit exactly the tables of the runs. */
  lemma {:induction false} EveryRunExecutes(t: Tables, ds: seq<Delivery>) returns (es: seq<Event>)
    requires Valid(t)
    ensures Idle(Execute(Initial(t), es)) && Execute(Initial(t), es).committed == Run(t, ds)
  {
    if ds == [] {
      es := [];
    } else {
      var front := ds[..|ds| - 1];
      var before := EveryRunExecutes(t, front);
      RunValid(t, front);
      var last := Alone(Execute(Initial(t), before), ds[|ds| - 1]);
      ExecuteConcat(Initial(t), before, last);
      es := before + last;
    }
  }

  // ----- Writers that overlap -----

  /** Both have decided before either has written its log entry. */
  lemma BothDecided(t: Tables, a: Delivery, b: Delivery) returns (x: Pending, y: Pending)
    requires CanDecide(Initial(t), 0, a) && CanDecide(Initial(t), 1, b)
    requires var da, db := Decide(t, a.who, a.op, a.clock.transaction), Decide(t, b.who, b.op, b.clock.transaction);
      && Writes(da) && Writes(db) && a.Key() != b.Key()
      && !SameProductRow(da, db) && !SameMovementId(da, db) && !SameBarcode(da, db)
    ensures After(After(Initial(t), Decides(0, a)), Decides(1, b)) == System(t, map[0 := x, 1 := y], None, [])
    ensures x.delivery == a && Writes(x.decision) && x.cursor == None && x.mark == 0
    ensures y.delivery == b && Writes(y.decision) && y.cursor == None && y.mark == 0
  {
    x := After(Initial(t), Decides(0, a)).active[0];
    var one := After(Initial(t), Decides(0, a));
    assert one == System(t, map[0 := x], None, []);
    LocksAreRows(x.decision, Decide(t, b.who, b.op, b.clock.transaction));
    assert Enabled(one, Decides(1, b));
    y := After(one, Decides(1, b)).active[1];
  }

  lemma Finishes(s: System, tx: nat)
    requires tx in s.active && Writes(s.active[tx].decision) && s.active[tx].cursor == None && s.holder == None
    requires forall y | y in s.active :: s.active[y].mark <= |s.serial|
    ensures var next := After(After(s, Allocates(tx)), Commits(tx));
      && next.active == s.active - {tx} && next.holder == None && next.serial == s.serial + [s.active[tx].delivery]
  {
    var numbered := After(s, Allocates(tx));
    assert numbered.active == s.active[tx := s.active[tx].(cursor := Some(s.committed.lastSeq + 1))];
    assert s.serial[..|s.serial|] + [s.active[tx].delivery] + s.serial[|s.serial|..] ==
      s.serial + [s.active[tx].delivery];
  }

  /** The one that decided last finishes first. */
  lemma LastFinishesFirst(t: Tables, x: Pending, y: Pending)
    requires Writes(x.decision) && x.cursor == None && x.mark == 0
    requires Writes(y.decision) && y.cursor == None && y.mark == 0
    ensures var s := System(t, map[0 := x, 1 := y], None, []);
      After(After(After(After(s, Allocates(1)), Commits(1)), Allocates(0)), Commits(0)).serial ==
      [y.delivery, x.delivery]
  {
    var s := System(t, map[0 := x, 1 := y], None, []);
    Finishes(s, 1);
    Finishes(After(After(s, Allocates(1)), Commits(1)), 0);
  }

  /** Two writers under different keys that share no product, movement id or
      barcode may both be open at once, and the one that decided last may well
      commit first; the tables are then those of that order. */
  lemma WritersOverlap(t: Tables, a: Delivery, b: Delivery)
    requires Valid(t) && CanDecide(Initial(t), 0, a) && CanDecide(Initial(t), 1, b)
    requires var da, db := Decide(t, a.who, a.op, a.clock.transaction), Decide(t, b.who, b.op, b.clock.transaction);
      && Writes(da) && Writes(db) && a.Key() != b.Key()
      && !SameProductRow(da, db) && !SameMovementId(da, db) && !SameBarcode(da, db)
    ensures var es := [Decides(0, a), Decides(1, b), Allocates(1), Commits(1), Allocates(0), Commits(0)];
      Execute(Initial(t), es).committed == Run(t, [b, a])
  {
    var es := [Decides(0, a), Decides(1, b), Allocates(1), Commits(1), Allocates(0), Commits(0)];
    var x, y := BothDecided(t, a, b);
    LastFinishesFirst(t, x, y);
    SixEvents(Initial(t), es);
    Serializable(t, es);
  }

  lemma SixEvents(s: System, es: seq<Event>)
    requires |es| == 6
    ensures Execute(s, es) == After(After(After(After(After(After(s, es[0]), es[1]), es[2]), es[3]), es[4]), es[5])
  {
    assert es[..6] == es && es[..5][..4] == es[..4] && es[..4][..3] == es[..3] && es[..3][..2] == es[..2];
    assert es[..2][..1] == es[..1] && es[..1][..0] == [];
    assert Execute(s, es[..1]) == After(s, es[0]);
    assert Execute(s, es[..2]) == After(Execute(s, es[..1]), es[1]);
    assert Execute(s, es[..3]) == After(Execute(s, es[..2]), es[2]);
    assert Execute(s, es[..4]) == After(Execute(s, es[..3]), es[3]);
    assert Execute(s, es[..5]) == After(Execute(s, es[..4]), es[4]);
  }
}
