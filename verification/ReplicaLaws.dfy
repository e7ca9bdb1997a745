/** What holds of a replica whatever entries it is given, from the server or
    not: when an entry is refused, what no entry can undo, that balances stay
    the fold of the stored movements, and that the order of a page's movements
    does not matter. */
module ReplicaLaws {
  import opened Prelude
  import opened Schema
  import opened Ledger
  import opened Replication
  import opened PageReplication

  // ----- When an entry is refused -----

  /** A movement is accepted exactly if its product is known, its own fields are
      in order, what it reverses is a known movement of the same product, and
      its id is new or stands for the very same movement. */
  lemma MovementAcceptedExactly(r: Replica, v: MovementView)
    ensures ApplyMovement(r, v).Ok? <==>
      && v.productId in r.products
      && v.delta != 0 && v.kind in {Receive, Issue, Adjust, Stocktake}
      && (v.kind == Stocktake <==> v.countedQty.Some?) && (v.countedQty.Some? ==> v.countedQty.value >= 0)
      && (v.reversesId.Some? ==>
            && v.kind == Adjust && v.reversesId.value != v.id && v.reversesId.value in r.movements
            && r.movements[v.reversesId.value].productId == v.productId)
      && (v.id in r.movements ==> r.movements[v.id] == v)
  {
  }

  /** A product entry that an existing row outdates. */
  predicate Outdated(r: Replica, v: ProductView) {
    && v.id in r.products
    && var was := r.products[v.id];
       if was.deletedAt.Some? then v.deletedAt == None || v.version < was.version
       else v.deletedAt == None && v.version < was.version
  }

  /** A product is accepted exactly if its own fields are in order and it is
      outdated, known already, or neither at odds with a row of its version nor
      taking a barcode from another active product. Then the row is the
      entry's, unless the entry is outdated. */
  lemma ProductAcceptedExactly(r: Replica, v: ProductView)
    ensures var known := v.id in r.products && r.products[v.id] == v;
      var atOdds := v.id in r.products && r.products[v.id].version == v.version && !known &&
                    (r.products[v.id].deletedAt.Some? || v.deletedAt == None);
      var barcodeTaken := v.deletedAt == None && v.fields.barcode.Some? &&
        exists q | q in r.products ::
          q != v.id && r.products[q].deletedAt == None && r.products[q].fields.barcode == v.fields.barcode;
      ApplyProduct(r, v).Ok? <==>
        && v.fields.name != "" && v.fields.unit != "" && v.version >= 0
        && (v.fields.minStock.Some? ==> v.fields.minStock.value >= 0)
        && (Outdated(r, v) || known || (!atOdds && !barcodeTaken))
    ensures ApplyProduct(r, v).Ok? ==>
      && v.id in ApplyProduct(r, v).value.products
      && ApplyProduct(r, v).value.products[v.id] == (if Outdated(r, v) then r.products[v.id] else v)
      && ApplyProduct(r, v).value.movements == r.movements
  {
    assert BarcodeInUseBy(r, v.id, v.fields.barcode) <==>
      v.fields.barcode.Some? && exists q | q in r.products ::
        q != v.id && r.products[q].deletedAt == None && r.products[q].fields.barcode == v.fields.barcode;
  }

  // ----- What no entry undoes -----

  /** Movements stay as they are, products stay, a tombstone stays one, and
      while a product is active its version does not fall. */
  ghost predicate Preserves(r: Replica, next: Replica) {
    && (forall id | id in r.movements :: id in next.movements && next.movements[id] == r.movements[id])
    && (forall id | id in r.products ::
          && id in next.products
          && (r.products[id].deletedAt.Some? ==> next.products[id].deletedAt.Some?)
          && (next.products[id].deletedAt.None? ==> next.products[id].version >= r.products[id].version))
  }

  lemma EntryPreserves(r: Replica, e: ChangeLogEntry)
    requires ApplyEntry(r, e).Ok?
    ensures Preserves(r, ApplyEntry(r, e).value)
  {
  }

  lemma {:induction false} EntriesPreserve(r: Replica, es: seq<ChangeLogEntry>)
    requires ApplyAll(r, es).Ok?
    ensures Preserves(r, ApplyAll(r, es).value)
  {
    if es != [] {
      var front := es[..|es| - 1];
      EntriesPreserve(r, front);
      EntryPreserves(ApplyAll(r, front).value, es[|es| - 1]);
    }
  }

  /** Applying an entry a second time changes nothing. */
  lemma EntryIdempotent(r: Replica, e: ChangeLogEntry)
    requires WellKept(r) && ApplyEntry(r, e).Ok?
    ensures ApplyEntry(ApplyEntry(r, e).value, e) == ApplyEntry(r, e)
  {
  }

  // ----- Balances stay the fold of the movements -----

  function WithMovement(b: ReplicaBalance, v: MovementView, productId: Uuid): ReplicaBalance {
    if v.productId == productId then Accumulate(b, v) else b
  }

  lemma FoldCommutes(b: ReplicaBalance, v: MovementView, w: MovementView, productId: Uuid)
    ensures WithMovement(WithMovement(b, v, productId), w, productId) ==
            WithMovement(WithMovement(b, w, productId), v, productId)
  {
  }

  /** Any movement may be taken as the last of the fold. */
  lemma {:induction false} FoldAnyLast(movements: map<Uuid, MovementView>, productId: Uuid, k: Uuid)
    requires k in movements
    ensures DeriveBalance(movements, productId) ==
            WithMovement(DeriveBalance(movements - {k}, productId), movements[k], productId)
    decreases |movements|
  {
    var id :| id in movements && DeriveBalance(movements, productId) ==
      WithMovement(DeriveBalance(movements - {id}, productId), movements[id], productId);
    if id != k {
      assert (movements - {id}).Keys < movements.Keys && (movements - {k}).Keys < movements.Keys;
      FoldAnyLast(movements - {id}, productId, k);
      FoldAnyLast(movements - {k}, productId, id);
      assert movements - {id} - {k} == movements - {k} - {id};
      FoldCommutes(DeriveBalance(movements - {id} - {k}, productId), movements[k], movements[id], productId);
    }
  }

  lemma FoldOneMore(movements: map<Uuid, MovementView>, v: MovementView, productId: Uuid)
    requires v.id !in movements
    ensures DeriveBalance(movements[v.id := v], productId) ==
            WithMovement(DeriveBalance(movements, productId), v, productId)
  {
    assert movements[v.id := v] - {v.id} == movements;
    FoldAnyLast(movements[v.id := v], productId, v.id);
  }

  /** Every product's balance is the sum and the latest time of its movements. */
  ghost predicate Summed(r: Replica) {
    WellKept(r) && forall id | id in r.products :: r.balances[id] == DeriveBalance(r.movements, id)
  }

  lemma EntryKeepsSums(r: Replica, e: ChangeLogEntry)
    requires Summed(r) && ApplyEntry(r, e).Ok?
    ensures Summed(ApplyEntry(r, e).value)
  {
    ApplyEntryKeeps(r, e);
    var next := ApplyEntry(r, e).value;
    if e.payload.MovementPayload? && e.payload.movement.id !in r.movements {
      var v := e.payload.movement;
      forall id | id in next.products ensures next.balances[id] == DeriveBalance(next.movements, id) {
        FoldOneMore(r.movements, v, id);
      }
    }
  }

  /** Whatever entries a replica applies, its balances stay the fold of its
      movements. */
  lemma {:induction false} EntriesKeepSums(r: Replica, es: seq<ChangeLogEntry>)
    requires Summed(r) && ApplyAll(r, es).Ok?
    ensures Summed(ApplyAll(r, es).value)
  {
    if es != [] {
      var front := es[..|es| - 1];
      EntriesKeepSums(r, front);
      EntryKeepsSums(ApplyAll(r, front).value, es[|es| - 1]);
    }
  }

  // ----- The order of a page's movements -----

  lemma NewMovementsCommute(r: Replica, v: MovementView, w: MovementView)
    requires v.id !in r.movements && w.id !in r.movements && v.id != w.id
    requires ApplyMovement(r, v).Ok? && ApplyMovement(r, w).Ok?
    requires ApplyMovement(ApplyMovement(r, v).value, w).Ok? && ApplyMovement(ApplyMovement(r, w).value, v).Ok?
    ensures ApplyMovement(ApplyMovement(r, w).value, v) == ApplyMovement(ApplyMovement(r, v).value, w)
  {
    var one := ApplyMovement(ApplyMovement(r, v).value, w).value;
    var other := ApplyMovement(ApplyMovement(r, w).value, v).value;
    assert one.movements == other.movements;
    assert one.balances == other.balances;
  }

  /** Two movements that can be applied one after the other, and of which the
      second could also go first, may be exchanged. */
  lemma MovementsCommute(r: Replica, v: MovementView, w: MovementView)
    requires ApplyMovement(r, v).Ok? && ApplyMovement(ApplyMovement(r, v).value, w).Ok? && ApplyMovement(r, w).Ok?
    ensures ApplyMovement(ApplyMovement(r, w).value, v) == ApplyMovement(ApplyMovement(r, v).value, w)
  {
    assert ApplyMovement(ApplyMovement(r, w).value, v).Ok?;
    if v.id !in r.movements && w.id !in r.movements && v.id != w.id {
      NewMovementsCommute(r, v, w);
    }
  }

  /** A movement that does not wait can be applied, if it can be applied later. */
  lemma NeedsNoMore(r: Replica, ms: seq<ChangeLogEntry>, e: ChangeLogEntry)
    requires AllMovements(ms) && e.payload.MovementPayload? && !Waits(r, e)
    requires ApplyAll(r, ms).Ok? && ApplyEntry(ApplyAll(r, ms).value, e).Ok?
    ensures ApplyEntry(r, e).Ok?
  {
    EntriesPreserve(r, ms);
    SameProducts(r, ms);
  }

  lemma {:induction false} SameProducts(r: Replica, ms: seq<ChangeLogEntry>)
    requires AllMovements(ms) && ApplyAll(r, ms).Ok?
    ensures ApplyAll(r, ms).value.products == r.products
  {
    if ms != [] {
      SameProducts(r, ms[..|ms| - 1]);
    }
  }

  /** So it may go first. */
  lemma {:induction false} MayGoFirst(r: Replica, ms: seq<ChangeLogEntry>, e: ChangeLogEntry)
    requires AllMovements(ms) && e.payload.MovementPayload? && !Waits(r, e)
    requires ApplyAll(r, ms).Ok? && ApplyEntry(ApplyAll(r, ms).value, e).Ok?
    ensures ApplyEntry(r, e).Ok?
    ensures ApplyAll(ApplyEntry(r, e).value, ms) == ApplyEntry(ApplyAll(r, ms).value, e)
  {
    NeedsNoMore(r, ms, e);
    if ms != [] {
      var front, last := ms[..|ms| - 1], ms[|ms| - 1];
      var before := ApplyAll(r, front).value;
      EntriesPreserve(r, front);
      SameProducts(r, front);
      assert ApplyEntry(before, e).Ok?;
      MovementsCommute(before, last.payload.movement, e.payload.movement);
      MayGoFirst(r, front, e);
    }
  }

  /** Some order in which all of them can be applied, and what it leads to. */
  ghost predicate Orders(r: Replica, order: seq<ChangeLogEntry>, ms: seq<ChangeLogEntry>, final: Replica) {
    multiset(order) == multiset(ms) && ApplyAll(r, order) == Ok(final)
  }

  /** An entry that does not wait is taken out of the order and goes first. */
  lemma TakeFirst(r: Replica, order: seq<ChangeLogEntry>, e: ChangeLogEntry, final: Replica)
    returns (rest: seq<ChangeLogEntry>)
    requires AllMovements(order) && e in order && !Waits(r, e) && ApplyAll(r, order) == Ok(final)
    ensures ApplyEntry(r, e).Ok? && ApplyAll(ApplyEntry(r, e).value, rest) == Ok(final)
    ensures multiset(rest) == multiset(order) - multiset{e} && AllMovements(rest)
  {
    var k :| 0 <= k < |order| && order[k] == e;
    var a, b := order[..k], order[k + 1..];
    assert order == (a + [e]) + b;
    ApplyConcat(r, a + [e], b);
    ApplyConcat(r, a, [e]);
    assert [e][..0] == [];
    MayGoFirst(r, a, e);
    rest := a + b;
    ApplyConcat(ApplyEntry(r, e).value, a, b);
  }

  /** One pass takes some of them, and what is left has an order of its own. */
  lemma {:induction false} PassKeepsOrder(r: Replica, ms: seq<ChangeLogEntry>, others: seq<ChangeLogEntry>,
                                          order: seq<ChangeLogEntry>, final: Replica)
    returns (rest: seq<ChangeLogEntry>)
    requires AllMovements(ms) && AllMovements(order) && Orders(r, order, ms + others, final)
    ensures OnePass(r, ms).Ok? && AllMovements(rest)
    ensures var pass := OnePass(r, ms).value;
      Orders(pass.replica, rest, pass.left + others, final) && AllMovements(pass.left)
  {
    if ms == [] {
      rest := order;
    } else {
      var front, e := ms[..|ms| - 1], ms[|ms| - 1];
      assert ms + others == front + ([e] + others);
      var middle := PassKeepsOrder(r, front, [e] + others, order, final);
      var pass := OnePass(r, front).value;
      assert pass.left + ([e] + others) == (pass.left + [e]) + others;
      if Waits(pass.replica, e) {
        rest := middle;
      } else {
        assert e in multiset(middle);
        rest := TakeFirst(pass.replica, middle, e, final);
        assert multiset(rest) == multiset(pass.left + others);
      }
    }
  }

  /** The first of the order does not wait, so a pass takes at least one. */
  lemma {:induction false} PassProgresses(r: Replica, ms: seq<ChangeLogEntry>)
    requires AllMovements(ms) && OnePass(r, ms).Ok? && |OnePass(r, ms).value.left| == |ms|
    ensures OnePass(r, ms).value == Pass(r, ms)
    ensures forall i | 0 <= i < |ms| :: Waits(r, ms[i])
  {
    if ms != [] {
      var front, last := ms[..|ms| - 1], ms[|ms| - 1];
      assert |OnePass(r, front).value.left| == |front|;
      PassProgresses(r, front);
      assert front + [last] == ms && Waits(r, last);
    }
  }

  /** If the movements of a page can be applied in any order at all, they are
      applied in whatever order the page lists them, with the same result:
      reversals before their originals, repeats and all. */
  lemma {:induction false} MovementsAnyOrder(r: Replica, ms: seq<ChangeLogEntry>, order: seq<ChangeLogEntry>,
                                             final: Replica)
    requires AllMovements(ms) && AllMovements(order) && Orders(r, order, ms, final)
    ensures ApplyMovements(r, ms) == Ok(final)
    decreases |ms|
  {
    assert |order| == |multiset(order)| == |multiset(ms)| == |ms|;
    if ms != [] {
      assert ms + [] == ms;
      var rest := PassKeepsOrder(r, ms, [], order, final);
      var pass := OnePass(r, ms).value;
      assert pass.left + [] == pass.left;
      FirstDoesNotWait(r, order);
      assert order[0] in multiset(ms);
      if |pass.left| == |ms| {
        PassProgresses(r, ms);
        assert false;
      }
      MovementsAnyOrder(pass.replica, pass.left, rest, final);
    } else {
      assert order == [];
    }
  }

  lemma FirstDoesNotWait(r: Replica, order: seq<ChangeLogEntry>)
    requires order != [] && AllMovements(order) && ApplyAll(r, order).Ok?
    ensures !Waits(r, order[0])
  {
    assert order == [order[0]] + order[1..];
    ApplyConcat(r, [order[0]], order[1..]);
    assert [order[0]][..0] == [];
  }
}
