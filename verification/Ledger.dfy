/** The immutable movement ledger: the aggregates that queries take over it,
    and the canonical order of stocktakes. */
module Ledger {
  import opened Prelude
  import opened Schema

  predicate Concerns(m: StockMovement, userId: Uuid, productId: Uuid) {
    m.userId == userId && m.productId == productId
  }

  /** COALESCE(SUM(delta), 0) over the product's rows. */
  function LedgerQty(ms: seq<StockMovement>, userId: Uuid, productId: Uuid): int {
    if ms == [] then 0
    else
      var m := ms[|ms| - 1];
      LedgerQty(ms[..|ms| - 1], userId, productId) + (if Concerns(m, userId, productId) then m.delta else 0)
  }

  /** The later of a remembered instant and a new one. */
  function Later(last: Option<Timestamp>, at: Timestamp): Option<Timestamp> {
    if last.None? || at > last.value then Some(at) else last
  }

  /** MAX(occurred_at) over the product's rows. */
  function LedgerLast(ms: seq<StockMovement>, userId: Uuid, productId: Uuid): Option<Timestamp> {
    if ms == [] then None
    else
      var m := ms[|ms| - 1];
      var before := LedgerLast(ms[..|ms| - 1], userId, productId);
      if Concerns(m, userId, productId) then Later(before, m.occurredAt) else before
  }

  /** One more movement folded into a stored projection row. */
  function Increment(balance: Option<ProductBalance>, delta: int32, occurredAt: Timestamp,
                     now: Timestamp): ProductBalance
  {
    if balance.None? then ProductBalance(delta, Some(occurredAt), now)
    else ProductBalance(balance.value.qty + delta, Later(balance.value.lastMovementAt, occurredAt), now)
  }

  /** The canonical stocktake order: corrected occurrence time, then id. */
  predicate KeyBefore(at: Timestamp, id: Uuid, laterAt: Timestamp, laterId: Uuid) {
    at < laterAt || (at == laterAt && id < laterId)
  }

  predicate StocktakeOf(m: StockMovement, userId: Uuid, productId: Uuid) {
    Concerns(m, userId, productId) && m.kind.Stocktake?
  }

  /** ORDER BY occurred_at DESC, id DESC LIMIT 1 over the product's stocktakes. */
  function LatestStocktake(ms: seq<StockMovement>, userId: Uuid, productId: Uuid): (r: Option<StockMovement>)
    ensures r.None? <==> forall m | m in ms :: !StocktakeOf(m, userId, productId)
    ensures r.Some? ==>
      && r.value in ms && StocktakeOf(r.value, userId, productId)
      && forall m | m in ms && StocktakeOf(m, userId, productId) ::
           !KeyBefore(r.value.occurredAt, r.value.id, m.occurredAt, m.id)
  {
    if ms == [] then None
    else
      var m := ms[|ms| - 1];
      var rest := ms[..|ms| - 1];
      assert ms == rest + [m];
      var best := LatestStocktake(rest, userId, productId);
      if StocktakeOf(m, userId, productId) &&
         (best.None? || KeyBefore(best.value.occurredAt, best.value.id, m.occurredAt, m.id))
      then Some(m) else best
  }

  // ----- How the aggregates react to one appended row -----

  lemma AppendRow(ms: seq<StockMovement>, m: StockMovement, userId: Uuid, productId: Uuid)
    ensures LedgerQty(ms + [m], userId, productId) ==
            LedgerQty(ms, userId, productId) + (if Concerns(m, userId, productId) then m.delta else 0)
    ensures LedgerLast(ms + [m], userId, productId) ==
            if Concerns(m, userId, productId) then Later(LedgerLast(ms, userId, productId), m.occurredAt)
            else LedgerLast(ms, userId, productId)
    ensures LatestStocktake(ms + [m], userId, productId) ==
            var best := LatestStocktake(ms, userId, productId);
            if StocktakeOf(m, userId, productId) &&
               (best.None? || KeyBefore(best.value.occurredAt, best.value.id, m.occurredAt, m.id))
            then Some(m) else best
  {
    assert (ms + [m])[..|ms|] == ms;
  }

  /** A product no row refers to has an empty balance. */
  lemma {:induction false} NoRows(ms: seq<StockMovement>, userId: Uuid, productId: Uuid)
    requires forall m | m in ms :: !Concerns(m, userId, productId)
    ensures LedgerQty(ms, userId, productId) == 0 && LedgerLast(ms, userId, productId) == None
  {
    if ms != [] {
      NoRows(ms[..|ms| - 1], userId, productId);
    }
  }

  /** LedgerLast is the maximum: it is attained, and nothing exceeds it. */
  lemma {:induction false} LastIsMaximum(ms: seq<StockMovement>, userId: Uuid, productId: Uuid)
    ensures var last := LedgerLast(ms, userId, productId);
      && (last.None? <==> forall m | m in ms :: !Concerns(m, userId, productId))
      && (last.Some? ==>
          && (exists m | m in ms :: Concerns(m, userId, productId) && m.occurredAt == last.value)
          && forall m | m in ms && Concerns(m, userId, productId) :: m.occurredAt <= last.value)
  {
    if ms != [] {
      var m := ms[|ms| - 1];
      var rest := ms[..|ms| - 1];
      assert ms == rest + [m];
      LastIsMaximum(rest, userId, productId);
      assert m in ms;
    }
  }

  // ----- Arrival order does not matter to a balance -----

  function Latest(a: Option<Timestamp>, b: Option<Timestamp>): Option<Timestamp> {
    if b.None? then a else Later(a, b.value)
  }

  lemma {:induction false} Concatenation(a: seq<StockMovement>, b: seq<StockMovement>, userId: Uuid, productId: Uuid)
    ensures LedgerQty(a + b, userId, productId) == LedgerQty(a, userId, productId) + LedgerQty(b, userId, productId)
    ensures LedgerLast(a + b, userId, productId) ==
      Latest(LedgerLast(a, userId, productId), LedgerLast(b, userId, productId))
  {
    if b == [] {
      assert a + b == a;
    } else {
      var front := b[..|b| - 1];
      Concatenation(a, front, userId, productId);
      assert a + b == (a + front) + [b[|b| - 1]];
      AppendRow(a + front, b[|b| - 1], userId, productId);
    }
  }

  /** Two ledgers with the same rows give every product the same balance,
      whatever the order in which the rows arrived. */
  lemma {:induction false} ArrivalOrderIrrelevant(ms: seq<StockMovement>, ns: seq<StockMovement>, userId: Uuid,
                                                  productId: Uuid)
    requires multiset(ms) == multiset(ns)
    ensures LedgerQty(ms, userId, productId) == LedgerQty(ns, userId, productId)
    ensures LedgerLast(ms, userId, productId) == LedgerLast(ns, userId, productId)
    decreases |ms|
  {
    if ms == [] {
      assert |multiset(ns)| == 0;
    } else {
      var m := ms[|ms| - 1];
      var front := ms[..|ms| - 1];
      var before, after := WithoutRow(ms, ns);
      ArrivalOrderIrrelevant(front, before + after, userId, productId);
      Concatenation(before, after, userId, productId);
      Concatenation(before, [m], userId, productId);
      Concatenation(before + [m], after, userId, productId);
      Concatenation(front, [m], userId, productId);
      assert ms == front + [m];
    }
  }

  lemma WithoutRow<T>(ms: seq<T>, ns: seq<T>) returns (before: seq<T>, after: seq<T>)
    requires multiset(ms) == multiset(ns) && ms != []
    ensures ns == before + [ms[|ms| - 1]] + after
    ensures multiset(ms[..|ms| - 1]) == multiset(before + after)
  {
    var m, front := ms[|ms| - 1], ms[..|ms| - 1];
    assert m in multiset(ns);
    var i :| 0 <= i < |ns| && ns[i] == m;
    before, after := ns[..i], ns[i + 1..];
    assert ms == front + [m];
    assert ns == before + [m] + after;
    Cancel(multiset(front), multiset(before + after), m);
  }

  lemma Cancel<T>(a: multiset<T>, b: multiset<T>, m: T)
    requires a + multiset{m} == b + multiset{m}
    ensures a == b
  {
    assert a == (a + multiset{m}) - multiset{m};
    assert b == (b + multiset{m}) - multiset{m};
  }

  // ----- Integer range of a balance -----

  /** How many rows a sum is taken over. */
  function RowCount(ms: seq<StockMovement>, userId: Uuid, productId: Uuid): nat {
    if ms == [] then 0
    else RowCount(ms[..|ms| - 1], userId, productId) + (if Concerns(ms[|ms| - 1], userId, productId) then 1 else 0)
  }

  /** A sum over n rows of a product lies within n times the int32 range,
      whatever other rows the ledger holds. */
  lemma {:induction false} QtyBound(ms: seq<StockMovement>, userId: Uuid, productId: Uuid)
    ensures var n := RowCount(ms, userId, productId);
      n * MIN_INT32 <= LedgerQty(ms, userId, productId) <= n * MAX_INT32
  {
    if ms != [] {
      QtyBound(ms[..|ms| - 1], userId, productId);
    }
  }

  const ROW_LIMIT: nat := 0x1_0000_0000
  const MIN_INT64: int := -0x8000_0000_0000_0000
  const MAX_INT64: int := 0x7fff_ffff_ffff_ffff

  predicate FitsInt64(n: int) {
    MIN_INT64 <= n <= MAX_INT64
  }

  /** Below 2^32 rows of its own, a product's bigint sum, the sum with one more
      delta, and the distance of any count from it fit in 64 bits. So the int32
      range test on a recomputed stocktake delta is taken on the true value. */
  lemma {:induction false} NoOverflow(ms: seq<StockMovement>, userId: Uuid, productId: Uuid, delta: int32,
                                      counted: int32)
    requires RowCount(ms, userId, productId) < ROW_LIMIT && counted >= 0
    ensures var qty := LedgerQty(ms, userId, productId);
      FitsInt64(qty) && FitsInt64(qty + delta) && FitsInt64(counted - qty)
  {
    QtyBound(ms, userId, productId);
  }
}
