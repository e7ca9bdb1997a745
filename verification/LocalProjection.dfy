/** The client's own balance projection: a full rebuild from its ledger rows,
    in whatever order the local database returns them, gives the balances that
    the server derives from its ledger. */
module LocalProjection {
  import opened Prelude
  import opened Schema
  import opened Ledger
  import opened Invariants
  import opened Replication

  datatype LocalBalance = LocalBalance(quantity: int, lastMovementAt: Option<Timestamp>, updatedAt: Timestamp)

  /** The fold of one product's rows. */
  function FoldRows(rows: seq<MovementView>, productId: Uuid): ReplicaBalance {
    if rows == [] then ReplicaBalance(0, None)
    else
      var before := FoldRows(rows[..|rows| - 1], productId);
      var m := rows[|rows| - 1];
      if m.productId == productId then Accumulate(before, m) else before
  }

  lemma FoldOneMore(rows: seq<MovementView>, m: MovementView, productId: Uuid)
    ensures FoldRows(rows + [m], productId) ==
            if m.productId == productId then Accumulate(FoldRows(rows, productId), m) else FoldRows(rows, productId)
  {
    assert (rows + [m])[..|rows|] == rows;
  }

  predicate Known(rows: seq<MovementView>, products: set<Uuid>) {
    forall i | 0 <= i < |rows| :: rows[i].productId in products
  }

  /** Adds up the rows per product; an unknown product stops it. */
  method AddUp(rows: seq<MovementView>, products: set<Uuid>) returns (totals: Option<map<Uuid, ReplicaBalance>>)
    ensures totals.Some? <==> Known(rows, products)
    ensures totals.Some? ==>
      totals.value.Keys == products && forall id | id in products :: totals.value[id] == FoldRows(rows, id)
  {
    var sums := map id | id in products :: ReplicaBalance(0, None);
    for i := 0 to |rows|
      invariant sums.Keys == products && Known(rows[..i], products)
      invariant forall id | id in products :: sums[id] == FoldRows(rows[..i], id)
    {
      var m := rows[i];
      if m.productId !in sums {
        return None;
      }
      assert rows[..i + 1] == rows[..i] + [m];
      forall id | id in products ensures FoldRows(rows[..i + 1], id) ==
        if m.productId == id then Accumulate(FoldRows(rows[..i], id), m) else FoldRows(rows[..i], id)
      {
        FoldOneMore(rows[..i], m, id);
      }
      sums := sums[m.productId := Accumulate(sums[m.productId], m)];
    }
    assert rows[..|rows|] == rows;
    totals := Some(sums);
  }

  class LocalDatabase {
    var products: map<Uuid, ProductView>
    var movements: seq<MovementView>
    var balances: map<Uuid, LocalBalance>

    constructor (products: map<Uuid, ProductView>, movements: seq<MovementView>, balances: map<Uuid, LocalBalance>)
      ensures this.products == products && this.movements == movements && this.balances == balances
    {
      this.products, this.movements, this.balances := products, movements, balances;
    }

    /** Replaces every projection row by the fold of the ledger rows. A row of
        an unknown product is an error, and leaves the projection as it was. */
    method Rebuild(rebuiltAt: Timestamp) returns (ok: bool)
      modifies this`balances
      ensures ok <==> forall i | 0 <= i < |movements| :: movements[i].productId in products
      ensures !ok ==> balances == old(balances)
      ensures ok ==> balances.Keys == products.Keys && forall id | id in products ::
        var total := FoldRows(movements, id);
        balances[id] == LocalBalance(total.qty, total.lastMovementAt, rebuiltAt)
    {
      var totals := AddUp(movements, products.Keys);
      if totals.None? {
        return false;
      }
      var rebuilt := totals.value;
      balances := map[];
      var left := rebuilt.Keys;
      while left != {}
        invariant left <= rebuilt.Keys && balances.Keys == rebuilt.Keys - left
        invariant forall id | id in balances ::
          balances[id] == LocalBalance(rebuilt[id].qty, rebuilt[id].lastMovementAt, rebuiltAt)
        decreases |left|
      {
        var id :| id in left;
        balances := balances[id := LocalBalance(rebuilt[id].qty, rebuilt[id].lastMovementAt, rebuiltAt)];
        left := left - {id};
      }
      ok := true;
    }
  }

  // ----- The rows may come in any order -----

  lemma {:induction false} FoldConcat(a: seq<MovementView>, b: seq<MovementView>, productId: Uuid)
    ensures var x, y, both := FoldRows(a, productId), FoldRows(b, productId), FoldRows(a + b, productId);
      both == ReplicaBalance(x.qty + y.qty, Latest(x.lastMovementAt, y.lastMovementAt))
  {
    if b == [] {
      assert a + b == a;
    } else {
      var front, m := b[..|b| - 1], b[|b| - 1];
      FoldConcat(a, front, productId);
      assert a + b == (a + front) + [m];
      FoldOneMore(a + front, m, productId);
    }
  }

  lemma {:induction false} FoldAnyOrder(a: seq<MovementView>, b: seq<MovementView>, productId: Uuid)
    requires multiset(a) == multiset(b)
    ensures FoldRows(a, productId) == FoldRows(b, productId)
    decreases |a|
  {
    if a == [] {
      assert |multiset(b)| == 0;
    } else {
      var m, front := a[|a| - 1], a[..|a| - 1];
      var before, after := WithoutRow(a, b);
      FoldAnyOrder(front, before + after, productId);
      FoldConcat(before, after, productId);
      FoldConcat(before, [m], productId);
      FoldConcat(before + [m], after, productId);
      FoldConcat(front, [m], productId);
      assert a == front + [m];
    }
  }

  // ----- It agrees with the server -----

  /** What replicas hold of one account's ledger. */
  function AccountRows(ms: seq<StockMovement>, userId: Uuid): seq<MovementView> {
    if ms == [] then []
    else
      AccountRows(ms[..|ms| - 1], userId) +
      (if ms[|ms| - 1].userId == userId then [ViewMovement(ms[|ms| - 1])] else [])
  }

  lemma {:induction false} FoldOfAccount(ms: seq<StockMovement>, userId: Uuid, productId: Uuid)
    ensures FoldRows(AccountRows(ms, userId), productId) ==
            ReplicaBalance(LedgerQty(ms, userId, productId), LedgerLast(ms, userId, productId))
  {
    if ms != [] {
      var front, m := ms[..|ms| - 1], ms[|ms| - 1];
      FoldOfAccount(front, userId, productId);
      FoldOneMore(AccountRows(front, userId), ViewMovement(m), productId);
      assert AccountRows(front, userId) + [] == AccountRows(front, userId);
    }
  }

  lemma {:induction false} AccountRowsKnown(t: Tables, n: nat, userId: Uuid)
    requires LedgerSound(t) && n <= |t.movements|
    ensures Known(AccountRows(t.movements[..n], userId), View(t, userId).products.Keys)
  {
    if n > 0 {
      assert t.movements[..n][..n - 1] == t.movements[..n - 1];
      AccountRowsKnown(t, n - 1, userId);
      assert RowSound(t, n - 1);
    }
  }

  /** A client that holds exactly the account's rows, in any order, rebuilds
      without error, and gets for every product the balance of the server's
      ledger, which is also the one in the server's own projection. */
  lemma RebuildMatchesServer(t: Tables, userId: Uuid, rows: seq<MovementView>)
    requires Valid(t) && multiset(rows) == multiset(AccountRows(t.movements, userId))
    ensures Known(rows, View(t, userId).products.Keys)
    ensures forall id | id in View(t, userId).products ::
      && FoldRows(rows, id) == View(t, userId).balances[id]
      && FoldRows(rows, id) == ReplicaBalance(t.balances[id].qty, t.balances[id].lastMovementAt)
  {
    var mine := AccountRows(t.movements, userId);
    AccountRowsKnown(t, |t.movements|, userId);
    assert t.movements[..|t.movements|] == t.movements;
    forall i | 0 <= i < |rows| ensures rows[i].productId in View(t, userId).products.Keys {
      assert rows[i] in multiset(mine);
    }
    forall id | id in View(t, userId).products
      ensures FoldRows(rows, id) == View(t, userId).balances[id]
    {
      FoldAnyOrder(rows, mine, id);
      FoldOfAccount(t.movements, userId, id);
    }
  }
}
