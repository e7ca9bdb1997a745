/** Maintenance of the projection while the service runs. A verification makes
    two reads at READ COMMITTED, and a rebuild writes sums that it read at its
    start; other transactions may commit in between. Exactly when is the report
    still right, and the projection still exact? */
module TornReads {
  import opened Prelude
  import opened Schema
  import opened Ledger
  import opened SyncPolicy
  import opened Invariants
  import opened Runs
  import opened Store
  import opened Projection
  import opened Concurrency
  import opened ProductLife

  /** The ledger derives the same balance for the product from both. */
  ghost predicate SameSum(t: Tables, next: Tables, userId: Uuid, id: Uuid) {
    && LedgerQty(next.movements, userId, id) == LedgerQty(t.movements, userId, id)
    && LedgerLast(next.movements, userId, id) == LedgerLast(t.movements, userId, id)
  }

  /** The account has the same products, with the same derived balances. */
  ghost predicate SameLedger(t: Tables, next: Tables, userId: Uuid) {
    ProductsOf(next, userId) == ProductsOf(t, userId)
      && forall id | id in ProductsOf(t, userId) :: SameSum(t, next, userId, id)
  }

  // ----- Verification -----

  lemma CanonicalRow(t: Tables, userId: Uuid, canonical: seq<LedgerBalance>, id: Uuid)
    requires LedgerBalances(t, userId, canonical) && id in ProductsOf(t, userId)
    ensures LedgerBalance(id, LedgerQty(t.movements, userId, id), LedgerLast(t.movements, userId, id)) in canonical
  {
    var i :| 0 <= i < |canonical| && canonical[i].productId == id;
    assert canonical[i] in canonical;
  }

  lemma StoredRow(next: Tables, userId: Uuid, projected: seq<ProjectedBalance>, id: Uuid)
    requires ProjectionExact(next) && ProjectedBalances(next, userId, projected) && id in ProductsOf(next, userId)
    ensures
      ProjectedBalance(id, LedgerQty(next.movements, userId, id), LedgerLast(next.movements, userId, id)) in projected
  {
    var i :| 0 <= i < |projected| && projected[i].productId == id;
    assert projected[i] in projected;
  }

  lemma AgreeImpliesSame(t: Tables, next: Tables, userId: Uuid, canonical: seq<LedgerBalance>,
                         projected: seq<ProjectedBalance>)
    requires LedgerBalances(t, userId, canonical) && ProjectionExact(next) && ProjectedBalances(next, userId, projected)
    requires Agree(canonical, projected)
    ensures SameLedger(t, next, userId)
  {
    forall id | id in ProductsOf(t, userId) ensures id in ProductsOf(next, userId) && SameSum(t, next, userId, id) {
      CanonicalRow(t, userId, canonical, id);
    }
    forall id | id in ProductsOf(next, userId) ensures id in ProductsOf(t, userId) {
      StoredRow(next, userId, projected, id);
    }
  }

  lemma SameImpliesAgree(t: Tables, next: Tables, userId: Uuid, canonical: seq<LedgerBalance>,
                         projected: seq<ProjectedBalance>)
    requires LedgerBalances(t, userId, canonical) && ProjectionExact(next) && ProjectedBalances(next, userId, projected)
    requires SameLedger(t, next, userId)
    ensures Agree(canonical, projected)
  {
    forall c | c in canonical ensures ProjectedBalance(c.productId, c.qty, c.lastMovementAt) in projected {
      assert c.productId in ProductsOf(t, userId) && c.productId in ProductsOf(next, userId);
      StoredRow(next, userId, projected, c.productId);
    }
    forall p | p in projected ensures LedgerBalance(p.productId, p.qty, p.lastMovementAt) in canonical {
      assert p.productId in ProductsOf(next, userId) && p.productId in ProductsOf(t, userId);
      CanonicalRow(t, userId, canonical, p.productId);
    }
  }

  /** The ledger read in one state, the projection in another exact one. */
  lemma TornReport(t: Tables, next: Tables, userId: Uuid, canonical: seq<LedgerBalance>,
                   projected: seq<ProjectedBalance>)
    requires LedgerBalances(t, userId, canonical) && ProjectionExact(next) && ProjectedBalances(next, userId, projected)
    ensures Agree(canonical, projected) <==> SameLedger(t, next, userId)
  {
    if Agree(canonical, projected) {
      AgreeImpliesSame(t, next, userId, canonical, projected);
    }
    if SameLedger(t, next, userId) {
      SameImpliesAgree(t, next, userId, canonical, projected);
    }
  }

  /** Any number of operations may commit between the two reads. On a database
      that was exact all along the report is consistent if and only if they left
      the account the same products with the same ledger sums and latest times:
      it is wrong after one more movement, and right after two that cancel. */
  lemma TornVerification(t: Tables, ds: seq<Delivery>, userId: Uuid, canonical: seq<LedgerBalance>,
                         projected: seq<ProjectedBalance>)
    requires Valid(t)
    requires LedgerBalances(t, userId, canonical) && ProjectedBalances(Run(t, ds), userId, projected)
    ensures Agree(canonical, projected) <==> SameLedger(t, Run(t, ds), userId)
  {
    RunValid(t, ds);
    TornReport(t, Run(t, ds), userId, canonical, projected);
  }

  /** The same for reads at two instants of any interleaving of writers. */
  lemma TornVerificationAt(t: Tables, es: seq<Event>, m: nat, n: nat, userId: Uuid,
                           canonical: seq<LedgerBalance>, projected: seq<ProjectedBalance>)
    requires Valid(t) && m <= n <= |es|
    requires LedgerBalances(Execute(Initial(t), es[..m]).committed, userId, canonical)
    requires ProjectedBalances(Execute(Initial(t), es[..n]).committed, userId, projected)
    ensures Agree(canonical, projected) <==>
            SameLedger(Execute(Initial(t), es[..m]).committed, Execute(Initial(t), es[..n]).committed, userId)
  {
    Serializable(t, es[..n]);
    TornReport(Execute(Initial(t), es[..m]).committed, Execute(Initial(t), es[..n]).committed, userId, canonical,
               projected);
  }

  // ----- One operation in between -----

  /** Does the delivery append to the account's ledger, or add a product to it? */
  ghost predicate ChangesBalances(t: Tables, d: Delivery, userId: Uuid) {
    && Committed(t, d) && d.Key() !in t.syncOps && d.who.userId == userId
    && var decision := Decide(t, d.who, d.op, d.clock.transaction);
       decision.WriteMovement? || (decision.WriteProduct? && decision.product.id !in t.products)
  }

  lemma AppendMovesSum(t: Tables, m: StockMovement, userId: Uuid)
    requires m.delta != 0
    ensures forall id ::
      LedgerQty(t.movements + [m], userId, id) == LedgerQty(t.movements, userId, id) <==> !Concerns(m, userId, id)
    ensures forall id | !Concerns(m, userId, id) ::
      LedgerLast(t.movements + [m], userId, id) == LedgerLast(t.movements, userId, id)
  {
    forall id: Uuid
      ensures LedgerQty(t.movements + [m], userId, id) == LedgerQty(t.movements, userId, id) <==>
        !Concerns(m, userId, id)
      ensures !Concerns(m, userId, id) ==>
        LedgerLast(t.movements + [m], userId, id) == LedgerLast(t.movements, userId, id)
    {
      AppendRow(t.movements, m, userId, id);
    }
  }

  lemma QuietDelivery(t: Tables, d: Delivery, userId: Uuid)
    requires Keyed(t) && !ChangesBalances(t, d, userId)
    ensures SameLedger(t, Deliver(t, d), userId)
  {
    var decision := DeliverCases(t, d);
    if decision.WriteMovement? {
      AppendMovesSum(t, decision.movement, userId);
    }
    assert forall id :: id in ProductsOf(Deliver(t, d), userId) <==> id in ProductsOf(t, userId);
  }

  lemma LoudDelivery(t: Tables, d: Delivery, userId: Uuid)
    requires Keyed(t) && ChangesBalances(t, d, userId)
    ensures !SameLedger(t, Deliver(t, d), userId)
  {
    var decision := DeliverCases(t, d);
    if decision.WriteMovement? {
      AppendMovesSum(t, decision.movement, userId);
      assert decision.movement.productId in ProductsOf(t, userId);
    } else {
      assert decision.product.id in ProductsOf(Deliver(t, d), userId);
    }
  }

  /** With one operation in between, the report is consistent if and only if
      that operation neither appended to the account's ledger nor created a
      product of it. */
  lemma TornByOneOperation(t: Tables, d: Delivery, userId: Uuid, canonical: seq<LedgerBalance>,
                           projected: seq<ProjectedBalance>)
    requires Valid(t)
    requires LedgerBalances(t, userId, canonical) && ProjectedBalances(Deliver(t, d), userId, projected)
    ensures Agree(canonical, projected) <==> !ChangesBalances(t, d, userId)
  {
    ProcessKeepsValid(t, d.who, d.op, d.clock);
    TornReport(t, Deliver(t, d), userId, canonical, projected);
    if ChangesBalances(t, d, userId) {
      LoudDelivery(t, d, userId);
    } else {
      QuietDelivery(t, d, userId);
    }
  }

  // ----- Rebuild -----

  lemma StaleSums(t: Tables, next: Tables, userId: Uuid, now: Timestamp)
    requires ProjectionExact(next) && ProductsOf(t, userId) <= ProductsOf(next, userId)
    ensures ExactFor(WithBalances(next, RecomputedBalances(t, userId, now)), userId) <==>
            forall id | id in ProductsOf(t, userId) :: SameSum(t, next, userId, id)
  {
    var written := WithBalances(next, RecomputedBalances(t, userId, now));
    forall id | id in ProductsOf(next, userId)
      ensures id in written.balances
      ensures id in ProductsOf(t, userId) ==>
        && written.balances[id].qty == LedgerQty(t.movements, userId, id)
        && written.balances[id].lastMovementAt == LedgerLast(t.movements, userId, id)
      ensures id !in ProductsOf(t, userId) ==> written.balances[id] == next.balances[id]
    {
    }
    assert written.products == next.products && written.movements == next.movements;
    if ExactFor(written, userId) {
      forall id | id in ProductsOf(t, userId) ensures SameSum(t, next, userId, id) {
        assert id in ProductsOf(next, userId);
      }
    }
  }

  lemma ProductsStay(t: Tables, ds: seq<Delivery>, userId: Uuid)
    requires Valid(t)
    ensures ProductsOf(t, userId) <= ProductsOf(Run(t, ds), userId)
  {
    forall id | id in ProductsOf(t, userId) ensures id in ProductsOf(Run(t, ds), userId) {
      VersionsGrow(t, ds, id);
    }
  }

  /** The rebuild statement sums the ledger as of its start, and writes a row
      over whatever the projection holds when it gets to it. On a database that
      is exact, with any operations committed in between, the account is exact
      afterwards if and only if they left every product it had at the start the
      same ledger sum and latest time. A product created meanwhile is not
      written, and does no harm. */
  lemma TornRebuild(t: Tables, ds: seq<Delivery>, userId: Uuid, now: Timestamp)
    requires Valid(t)
    ensures ExactFor(WithBalances(Run(t, ds), RecomputedBalances(t, userId, now)), userId) <==>
            forall id | id in ProductsOf(t, userId) :: SameSum(t, Run(t, ds), userId, id)
  {
    RunValid(t, ds);
    ProductsStay(t, ds, userId);
    StaleSums(t, Run(t, ds), userId, now);
  }

  /** So one movement that commits while the statement is at work makes an
      exact projection wrong, in exactly that product. */
  lemma RebuildLosesMovement(t: Tables, d: Delivery, now: Timestamp)
    requires Valid(t) && Committed(t, d) && d.Key() !in t.syncOps
    requires Decide(t, d.who, d.op, d.clock.transaction).WriteMovement?
    ensures var m := Decide(t, d.who, d.op, d.clock.transaction).movement;
      var after := WithBalances(Deliver(t, d), RecomputedBalances(t, d.who.userId, now));
      && ExactFor(t, d.who.userId) && !ExactFor(after, d.who.userId)
      && m.productId in after.balances
      && after.balances[m.productId].qty + m.delta == LedgerQty(after.movements, d.who.userId, m.productId)
  {
    var decision := DeliverCases(t, d);
    var m := Decide(t, d.who, d.op, d.clock.transaction).movement;
    AppendRow(t.movements, m, d.who.userId, m.productId);
    assert m.productId in ProductsOf(t, d.who.userId);
  }
}
