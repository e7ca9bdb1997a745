/** The stocktake policy on the server itself: the anchor of a balance, and the
    exact condition under which the arrival order of operations is irrelevant. */
module StocktakeRuns {
  import opened Prelude
  import opened Schema
  import opened Ledger
  import opened SyncPolicy
  import opened Invariants
  import opened Runs
  import opened Stocktakes
  import M = MovementPolicy

  // ----- The anchor -----

  lemma LatestIsLastAppended(t: Tables, userId: Uuid, productId: Uuid, i: nat)
    requires StocktakesAnchored(t) && i < |t.movements| && StocktakeOf(t.movements[i], userId, productId)
    requires forall j | i < j < |t.movements| :: !StocktakeOf(t.movements[j], userId, productId)
    ensures LatestStocktake(t.movements, userId, productId) == Some(t.movements[i])
  {
    var latest := LatestStocktake(t.movements, userId, productId);
    assert t.movements[i] in t.movements;
    var k :| 0 <= k < |t.movements| && t.movements[k] == latest.value;
    assert forall j | 0 <= j < i :: OrderedStocktakes(t.movements[j], t.movements[i]);
    assert k == i;
  }

  /** The stocktake the policy reads as latest is the last one appended, and
      the stored balance is its count plus everything appended after it. */
  lemma AnchoredBalance(t: Tables, productId: Uuid, i: nat)
    requires LedgerSound(t) && ProjectionExact(t) && StocktakesAnchored(t)
    requires productId in t.products && i < |t.movements|
    requires StocktakeOf(t.movements[i], t.products[productId].userId, productId)
    requires forall j | i < j < |t.movements| :: !StocktakeOf(t.movements[j], t.products[productId].userId, productId)
    ensures var userId := t.products[productId].userId;
      && LatestStocktake(t.movements, userId, productId) == Some(t.movements[i])
      && t.movements[i].countedQty.Some?
      && t.balances[productId].qty ==
        t.movements[i].countedQty.value + LedgerQty(t.movements[i + 1..], userId, productId)
  {
    var userId := t.products[productId].userId;
    LatestIsLastAppended(t, userId, productId, i);
    assert RowSound(t, i);
    assert t.movements == t.movements[..i + 1] + t.movements[i + 1..];
    Concatenation(t.movements[..i + 1], t.movements[i + 1..], userId, productId);
  }

  // ----- The server refines the abstract shelf -----

  /** What the policy reads of a product. */
  function ShelfOf(t: Tables, userId: Uuid, productId: Uuid): Shelf {
    var latest := LatestStocktake(t.movements, userId, productId);
    Shelf(LedgerQty(t.movements, userId, productId),
          if latest.Some? && latest.value.countedQty.Some? && latest.value.countedQty.value >= 0
          then Some(Count(latest.value.occurredAt, latest.value.id, latest.value.countedQty.value)) else None)
  }

  /** A well-formed stocktake operation from a device of the account. */
  predicate IsStocktake(d: Delivery, devices: map<Uuid, Uuid>, userId: Uuid, productId: Uuid) {
    && !d.fate.Dropped? && ValidOperation(d.op) && d.op.payload.AddMovement?
    && d.who.userId == userId && userId != NIL_UUID && d.who.deviceId != NIL_UUID
    && d.who.deviceId in devices && devices[d.who.deviceId] == userId
    && var m := d.op.payload.movement;
       m.productId == productId && m.kind.Stocktake? && (m.deviceId.None? || m.deviceId.value == d.who.deviceId)
  }

  predicate Counted(d: Delivery) {
    d.op.payload.AddMovement? && d.op.payload.movement.countedQty.Some? && d.op.payload.movement.countedQty.value >= 0
  }

  function CountOf(d: Delivery): Count
    requires Counted(d)
  {
    var m := d.op.payload.movement;
    Count(m.occurredAt, m.id, m.countedQty.value)
  }

  predicate Unseen(t: Tables, d: Delivery) {
    d.Key() !in t.syncOps && (d.op.payload.AddMovement? ==> !MovementExists(t.movements, d.op.payload.movement.id))
  }

  lemma LatestCounted(t: Tables, userId: Uuid, productId: Uuid)
    requires LedgerSound(t)
    ensures var latest := LatestStocktake(t.movements, userId, productId);
      latest.Some? ==> latest.value.countedQty.Some? && latest.value.countedQty.value >= 0
  {
    var latest := LatestStocktake(t.movements, userId, productId);
    if latest.Some? {
      var i :| 0 <= i < |t.movements| && t.movements[i] == latest.value;
      assert RowSound(t, i);
    }
  }

  lemma StocktakeDecision(t: Tables, d: Delivery, userId: Uuid, productId: Uuid)
    requires LedgerSound(t) && IsStocktake(d, t.devices, userId, productId) && Unseen(t, d)
    requires M.ActiveAndOwned(t.products, userId, productId)
    ensures Counted(d)
    ensures var decision := Decide(t, d.who, d.op, d.clock.transaction);
      var s, c := ShelfOf(t, userId, productId), CountOf(d);
      if Arrive(s, c) == s then decision.Reject?
      else decision.WriteMovement? && decision.movement.id == c.id && decision.movement.occurredAt == c.at
           && StocktakeOf(decision.movement, userId, productId)
           && decision.movement.countedQty == Some(c.qty) && decision.movement.delta == c.qty - s.balance
           && (s.canonical.Some? ==> Before(s.canonical.value, c))
  {
    LatestCounted(t, userId, productId);
  }

  lemma ShelfAfterRow(t: Tables, m: StockMovement, userId: Uuid, productId: Uuid)
    requires StocktakeOf(m, userId, productId) && m.countedQty.Some? && m.countedQty.value >= 0
    requires var latest := LatestStocktake(t.movements, userId, productId);
      latest.Some? ==> KeyBefore(latest.value.occurredAt, latest.value.id, m.occurredAt, m.id)
    requires m.delta == m.countedQty.value - LedgerQty(t.movements, userId, productId)
    ensures ShelfOf(t.(movements := t.movements + [m]), userId, productId) ==
            Shelf(m.countedQty.value, Some(Count(m.occurredAt, m.id, m.countedQty.value)))
  {
    AppendRow(t.movements, m, userId, productId);
  }

  /** A stocktake moves the product as the abstract shelf says, and touches no
      other product, key or movement id. */
  ghost predicate MovedBy(t: Tables, next: Tables, d: Delivery, userId: Uuid, productId: Uuid)
    requires Counted(d)
  {
    && ShelfOf(next, userId, productId) == Arrive(ShelfOf(t, userId, productId), CountOf(d))
    && next.products == t.products && next.devices == t.devices
    && next.syncOps.Keys == t.syncOps.Keys + {d.Key()}
    && (forall id | MovementExists(next.movements, id) :: id == CountOf(d).id || MovementExists(t.movements, id))
  }

  lemma CompleteStocktake(t: Tables, d: Delivery, decision: Decision, userId: Uuid, productId: Uuid)
    requires LedgerSound(t) && Counted(d) && !decision.Abandon?
    requires var s, c := ShelfOf(t, userId, productId), CountOf(d);
      if decision.Reject? then Arrive(s, c) == s
      else decision.WriteMovement? && StocktakeOf(decision.movement, userId, productId)
           && decision.movement.id == c.id && decision.movement.occurredAt == c.at
           && decision.movement.countedQty == Some(c.qty) && decision.movement.delta == c.qty - s.balance
           && (s.canonical.Some? ==> Before(s.canonical.value, c)) && Arrive(s, c) != s
    ensures MovedBy(t, Complete(t, d.who, d.op.opId, decision, d.clock), d, userId, productId)
  {
    var next := Complete(t, d.who, d.op.opId, decision, d.clock);
    if decision.WriteMovement? {
      LatestCounted(t, userId, productId);
      ShelfAfterRow(t, decision.movement, userId, productId);
      assert ShelfOf(next, userId, productId) ==
        ShelfOf(t.(movements := t.movements + [decision.movement]), userId, productId);
    }
  }

  lemma DeliverStocktake(t: Tables, d: Delivery, userId: Uuid, productId: Uuid)
    requires Keyed(t) && LedgerSound(t) && IsStocktake(d, t.devices, userId, productId) && Unseen(t, d)
    requires M.ActiveAndOwned(t.products, userId, productId)
    ensures Counted(d) && MovedBy(t, Deliver(t, d), d, userId, productId)
  {
    StocktakeDecision(t, d, userId, productId);
    DeliverDecision(t, d);
    CompleteStocktake(t, d, Decide(t, d.who, d.op, d.clock.transaction), userId, productId);
  }

  function Counts(ds: seq<Delivery>): (counts: seq<Count>)
    requires forall i | 0 <= i < |ds| :: Counted(ds[i])
    ensures |counts| == |ds| && forall i | 0 <= i < |ds| :: counts[i] == CountOf(ds[i])
  {
    if ds == [] then [] else Counts(ds[..|ds| - 1]) + [CountOf(ds[|ds| - 1])]
  }

  /** Stocktakes of one product, new to the server, under distinct keys and
      movement ids. */
  predicate NewStocktakes(t: Tables, ds: seq<Delivery>, userId: Uuid, productId: Uuid) {
    && (forall i | 0 <= i < |ds| ::
          IsStocktake(ds[i], t.devices, userId, productId) && Counted(ds[i]) && Unseen(t, ds[i]))
    && (forall i, j | 0 <= i < j < |ds| :: ds[i].Key() != ds[j].Key() && CountOf(ds[i]).id != CountOf(ds[j]).id)
  }

  /** Only these deliveries have left a key or a movement id behind. */
  ghost predicate LeftBehind(t: Tables, next: Tables, ds: seq<Delivery>)
    requires forall i | 0 <= i < |ds| :: Counted(ds[i])
  {
    && (forall key | key in next.syncOps :: key in t.syncOps || exists i | 0 <= i < |ds| :: ds[i].Key() == key)
    && (forall id | MovementExists(next.movements, id) ::
          MovementExists(t.movements, id) || exists i | 0 <= i < |ds| :: CountOf(ds[i]).id == id)
  }

  lemma StillUnseen(t: Tables, next: Tables, ds: seq<Delivery>, userId: Uuid, productId: Uuid)
    requires ds != [] && NewStocktakes(t, ds, userId, productId)
    requires LeftBehind(t, next, ds[..|ds| - 1])
    ensures Unseen(next, ds[|ds| - 1])
  {
    var n := |ds| - 1;
    var front := ds[..n];
    forall i | 0 <= i < n ensures front[i].Key() != ds[n].Key() && CountOf(front[i]).id != CountOf(ds[n]).id {
      assert front[i] == ds[i];
    }
  }

  lemma LeaveBehindOneMore(t: Tables, middle: Tables, next: Tables, front: seq<Delivery>, d: Delivery)
    requires (forall i | 0 <= i < |front| :: Counted(front[i])) && Counted(d) && LeftBehind(t, middle, front)
    requires next.syncOps.Keys == middle.syncOps.Keys + {d.Key()}
    requires forall id | MovementExists(next.movements, id) ::
      id == CountOf(d).id || MovementExists(middle.movements, id)
    ensures LeftBehind(t, next, front + [d])
  {
    var ds := front + [d];
    assert ds[|front|] == d && forall i | 0 <= i < |front| :: ds[i] == front[i];
  }

  /** The server keeps pace with the abstract arrivals of these deliveries. */
  ghost predicate KeepsPace(t: Tables, next: Tables, ds: seq<Delivery>, userId: Uuid, productId: Uuid)
    requires forall i | 0 <= i < |ds| :: Counted(ds[i])
  {
    && ShelfOf(next, userId, productId) == ArriveAll(ShelfOf(t, userId, productId), Counts(ds))
    && next.products == t.products && next.devices == t.devices
    && LeftBehind(t, next, ds)
  }

  lemma OneMoreStocktake(t: Tables, middle: Tables, ds: seq<Delivery>, userId: Uuid, productId: Uuid)
    requires ds != [] && NewStocktakes(t, ds, userId, productId) && M.ActiveAndOwned(t.products, userId, productId)
    requires Keyed(middle) && LedgerSound(middle) && KeepsPace(t, middle, ds[..|ds| - 1], userId, productId)
    ensures KeepsPace(t, Deliver(middle, ds[|ds| - 1]), ds, userId, productId)
  {
    var n := |ds| - 1;
    StillUnseen(t, middle, ds, userId, productId);
    DeliverStocktake(middle, ds[n], userId, productId);
    LeaveBehindOneMore(t, middle, Deliver(middle, ds[n]), ds[..n], ds[n]);
    assert ds == ds[..n] + [ds[n]];
    assert Counts(ds)[..n] == Counts(ds[..n]);
  }

  /** A run of stocktakes of one product refines the abstract arrivals. */
  lemma {:induction false} RunStocktakes(t: Tables, ds: seq<Delivery>, userId: Uuid, productId: Uuid)
    requires Valid(t) && M.ActiveAndOwned(t.products, userId, productId) && NewStocktakes(t, ds, userId, productId)
    ensures KeepsPace(t, Run(t, ds), ds, userId, productId)
  {
    if ds != [] {
      var front := ds[..|ds| - 1];
      assert NewStocktakes(t, front, userId, productId) by {
        assert forall i | 0 <= i < |front| :: front[i] == ds[i];
      }
      RunStocktakes(t, front, userId, productId);
      RunValid(t, front);
      OneMoreStocktake(t, Run(t, front), ds, userId, productId);
    }
  }

  // ----- The exact condition, on the server -----

  /** The run that delivers the counts in this order. */
  function Sent(pick: map<Count, Delivery>, order: seq<Count>): (ds: seq<Delivery>)
    requires forall c | c in order :: c in pick
    ensures |ds| == |order| && forall i | 0 <= i < |order| :: ds[i] == pick[order[i]]
  {
    seq(|order|, i requires 0 <= i < |order| => pick[order[i]])
  }

  /** One unseen stocktake operation for every count, under distinct keys. */
  predicate Deliverable(t: Tables, pick: map<Count, Delivery>, userId: Uuid, productId: Uuid) {
    && (forall c | c in pick ::
          IsStocktake(pick[c], t.devices, userId, productId) && Counted(pick[c]) && Unseen(t, pick[c])
            && CountOf(pick[c]) == c)
    && (forall a, b | a in pick && b in pick && a != b :: pick[a].Key() != pick[b].Key())
  }

  lemma SentIsStocktake(t: Tables, pick: map<Count, Delivery>, userId: Uuid, productId: Uuid, order: seq<Count>, i: nat)
    requires Deliverable(t, pick, userId, productId) && (forall c | c in order :: c in pick) && i < |order|
    ensures var d := Sent(pick, order)[i];
      IsStocktake(d, t.devices, userId, productId) && Counted(d) && Unseen(t, d) && CountOf(d) == order[i]
  {
    assert order[i] in pick;
  }

  lemma SentIsNew(t: Tables, pick: map<Count, Delivery>, userId: Uuid, productId: Uuid, order: seq<Count>)
    requires Deliverable(t, pick, userId, productId) && DistinctIds(pick.Keys) && IsArrival(order, pick.Keys)
    ensures forall c | c in order :: c in pick
    ensures NewStocktakes(t, Sent(pick, order), userId, productId) && Counts(Sent(pick, order)) == order
  {
    ArrivalMembers(order, pick.Keys);
    var ds := Sent(pick, order);
    forall i | 0 <= i < |ds|
      ensures IsStocktake(ds[i], t.devices, userId, productId) && Counted(ds[i]) && Unseen(t, ds[i])
      ensures CountOf(ds[i]) == order[i]
    {
      SentIsStocktake(t, pick, userId, productId, order, i);
    }
    forall i, j | 0 <= i < j < |ds| ensures ds[i].Key() != ds[j].Key() && CountOf(ds[i]).id != CountOf(ds[j]).id {
      assert order[i] in pick && order[j] in pick && order[i] != order[j];
    }
  }

  /** In whatever order a set of stocktake operations arrives, the server runs
      the abstract arrivals from what the product then has. */
  lemma ServerArrivals(t: Tables, pick: map<Count, Delivery>, userId: Uuid, productId: Uuid, order: seq<Count>)
    requires Valid(t) && M.ActiveAndOwned(t.products, userId, productId)
    requires Deliverable(t, pick, userId, productId) && DistinctIds(pick.Keys) && IsArrival(order, pick.Keys)
    ensures (forall c | c in order :: c in pick)
    ensures productId in Run(t, Sent(pick, order)).balances
    ensures ShelfOf(t, userId, productId).balance == t.balances[productId].qty
    ensures Run(t, Sent(pick, order)).balances[productId].qty == ArriveAll(ShelfOf(t, userId, productId), order).balance
  {
    SentIsNew(t, pick, userId, productId, order);
    RunStocktakes(t, Sent(pick, order), userId, productId);
    RunValid(t, Sent(pick, order));
  }

  ghost predicate EndsAt(t: Tables, pick: map<Count, Delivery>, order: seq<Count>, productId: Uuid, qty: int) {
    && (forall c | c in order :: c in pick)
    && productId in Run(t, Sent(pick, order)).balances
    && Run(t, Sent(pick, order)).balances[productId].qty == qty
  }

  /** All arrival orders on the server leave the winner's count as the balance
      if and only if the counts ahead of the product's canonical stocktake, all
      of them where it has none, settle from its balance. The winner is the
      greatest of them. */
  lemma ServerConfluentIffSettles(t: Tables, pick: map<Count, Delivery>, userId: Uuid, productId: Uuid, w: Count)
    requires Valid(t) && M.ActiveAndOwned(t.products, userId, productId)
    requires Deliverable(t, pick, userId, productId) && DistinctIds(pick.Keys)
    requires IsWinner(w, Contenders(ShelfOf(t, userId, productId), pick.Keys))
    ensures Settles(t.balances[productId].qty, Contenders(ShelfOf(t, userId, productId), pick.Keys), w) <==>
      forall order | IsArrival(order, pick.Keys) :: EndsAt(t, pick, order, productId, w.qty)
  {
    var s := ShelfOf(t, userId, productId);
    ConfluentFromIffSettles(s, pick.Keys, w);
    forall order | IsArrival(order, pick.Keys)
      ensures EndsAt(t, pick, order, productId, w.qty) <==> ArriveAll(s, order).balance == w.qty
    {
      ServerArrivals(t, pick, userId, productId, order);
    }
  }

  /** On a product without stocktakes every count is a contender. */
  lemma FirstStocktakes(t: Tables, userId: Uuid, productId: Uuid, counts: set<Count>)
    requires LatestStocktake(t.movements, userId, productId).None?
    ensures Contenders(ShelfOf(t, userId, productId), counts) == counts
  {
  }
}
