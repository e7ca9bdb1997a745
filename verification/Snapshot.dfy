/** The bootstrap snapshot of one account: rows, derived balances and cursor
    from one view of the database, and the proof that a replica started from
    it converges under concurrent writers. */
module Snapshot {
  import opened Prelude
  import opened Schema
  import opened Ledger
  import opened ChangeFeed
  import opened SyncPolicy
  import opened Invariants
  import opened Runs
  import opened Store
  import opened Replication
  import opened Concurrency

  datatype Limits = Limits(maxProducts: nat, maxMovements: nat)

  datatype AccountSnapshot = AccountSnapshot(
    products: seq<Product>,
    movements: seq<StockMovement>,
    balances: seq<LedgerBalance>,
    cursor: nat,
    serverTime: Timestamp)

  datatype SnapshotError = InvalidUser | TooLarge | Unavailable

  predicate ValidLimits(limits: Limits) {
    0 < limits.maxProducts < MAX_INT32 && 0 < limits.maxMovements < MAX_INT32
  }

  predicate Fits(t: Tables, userId: Uuid, limits: Limits) {
    |ProductsOf(t, userId)| <= limits.maxProducts && |AccountMovements(t.movements, userId)| <= limits.maxMovements
  }

  /** The snapshot is the account, whole, as of these tables. */
  ghost predicate SnapshotOf(t: Tables, userId: Uuid, s: AccountSnapshot) {
    && AccountProducts(t, userId, s.products)
    && s.movements == InOrder(AccountMovements(t.movements, userId))
    && LedgerBalances(t, userId, s.balances)
    && s.cursor == t.lastSeq
  }

  /** Five reads in one repeatable-read transaction. An account over a bound is
      refused, never cut. */
  method GetSnapshot(db: Database, userId: Uuid, limits: Limits, fault: Fault, now: Timestamp)
    returns (r: Result<AccountSnapshot, SnapshotError>)
    requires db.Valid() && !db.inTransaction && ValidLimits(limits)
    modifies db
    ensures db.Valid() && !db.inTransaction && db.Tables() == old(db.Tables())
    ensures userId == NIL_UUID ==> r == Err(InvalidUser)
    ensures r == Err(TooLarge) ==> !Fits(db.Tables(), userId, limits)
    ensures r.Ok? ==>
      Fits(db.Tables(), userId, limits) && SnapshotOf(db.Tables(), userId, r.value) && r.value.serverTime == now
    ensures r.Ok? ==> r.value.cursor == db.lastSeq && |r.value.movements| <= limits.maxMovements
    ensures fault.Healthy? && userId != NIL_UUID ==>
      if Fits(db.Tables(), userId, limits) then r.Ok? else r == Err(TooLarge)
  {
    if userId == NIL_UUID {
      return Err(InvalidUser);
    }
    db.Begin(fault, now);
    var read := ReadSnapshot(db, userId, limits);
    if read.Err? {
      db.Rollback();
      return read;
    }
    var committed := db.Commit();
    r := if committed then read else Err(Unavailable);
  }

  method ReadSnapshot(db: Database, userId: Uuid, limits: Limits) returns (r: Result<AccountSnapshot, SnapshotError>)
    requires db.Open() && !db.aborted && !db.lost && ValidLimits(limits)
    modifies db
    ensures db.Continues() && db.Tables() == old(db.Tables())
    ensures r == Err(TooLarge) ==> !Fits(db.Tables(), userId, limits)
    ensures r.Ok? ==>
      !db.aborted && Fits(db.Tables(), userId, limits) && SnapshotOf(db.Tables(), userId, r.value)
        && r.value.serverTime == db.now
    ensures db.fault.Healthy? ==> if Fits(db.Tables(), userId, limits) then r.Ok? else r == Err(TooLarge)
  {
    var products := db.ListSnapshotProducts(userId, limits.maxProducts);
    if !products.Row? {
      return Err(Unavailable);
    }
    if products.value.1 {
      return Err(TooLarge);
    }
    var movements := db.ListSnapshotMovements(userId, limits.maxMovements);
    if !movements.Row? {
      return Err(Unavailable);
    }
    if movements.value.1 {
      return Err(TooLarge);
    }
    var balances := db.ListSnapshotBalances(userId, limits.maxProducts);
    if !balances.Row? {
      return Err(Unavailable);
    }
    if balances.value.1 {
      return Err(TooLarge);
    }
    var cursor := db.CurrentChangeSequence();
    if !cursor.Row? {
      return Err(Unavailable);
    }
    var serverTime := db.CurrentDatabaseTime();
    if !serverTime.Row? {
      return Err(Unavailable);
    }
    r := Ok(AccountSnapshot(products.value.0, movements.value.0, balances.value.0, cursor.value, serverTime.value));
  }

  // ----- Installing it -----

  function ProductTable(rows: seq<Product>): map<Uuid, ProductView> {
    if rows == [] then map[]
    else ProductTable(rows[..|rows| - 1])[rows[|rows| - 1].id := ViewProduct(rows[|rows| - 1])]
  }

  function MovementTable(rows: seq<StockMovement>): map<Uuid, MovementView> {
    if rows == [] then map[]
    else MovementTable(rows[..|rows| - 1])[rows[|rows| - 1].id := ViewMovement(rows[|rows| - 1])]
  }

  function BalanceTable(rows: seq<LedgerBalance>): map<Uuid, ReplicaBalance> {
    if rows == [] then map[]
    else
      var b := rows[|rows| - 1];
      BalanceTable(rows[..|rows| - 1])[b.productId := ReplicaBalance(b.qty, b.lastMovementAt)]
  }

  /** A client replaces its tables by the rows of the snapshot. */
  function Installed(s: AccountSnapshot): Replica {
    Replica(ProductTable(s.products), MovementTable(s.movements), BalanceTable(s.balances))
  }

  lemma {:induction false} ProductTableHolds(rows: seq<Product>)
    requires forall i, j | 0 <= i < j < |rows| :: rows[i].id < rows[j].id
    ensures forall id :: id in ProductTable(rows) <==> exists i | 0 <= i < |rows| :: rows[i].id == id
    ensures forall i | 0 <= i < |rows| ::
      rows[i].id in ProductTable(rows) && ProductTable(rows)[rows[i].id] == ViewProduct(rows[i])
  {
    if rows != [] {
      var front := rows[..|rows| - 1];
      ProductTableHolds(front);
      assert forall i | 0 <= i < |front| :: front[i] == rows[i];
    }
  }

  lemma {:induction false} BalanceTableHolds(rows: seq<LedgerBalance>)
    requires forall i, j | 0 <= i < j < |rows| :: rows[i].productId < rows[j].productId
    ensures forall id :: id in BalanceTable(rows) <==> exists i | 0 <= i < |rows| :: rows[i].productId == id
    ensures forall i | 0 <= i < |rows| ::
      && rows[i].productId in BalanceTable(rows)
      && BalanceTable(rows)[rows[i].productId] == ReplicaBalance(rows[i].qty, rows[i].lastMovementAt)
  {
    if rows != [] {
      var front := rows[..|rows| - 1];
      BalanceTableHolds(front);
      assert forall i | 0 <= i < |front| :: front[i] == rows[i];
    }
  }

  predicate DistinctRows(rows: seq<StockMovement>) {
    forall i, j | 0 <= i < j < |rows| :: rows[i].id != rows[j].id
  }

  ghost predicate TableOf(table: map<Uuid, MovementView>, rows: seq<StockMovement>) {
    && (forall m | m in rows :: m.id in table && table[m.id] == ViewMovement(m))
    && (forall id | id in table :: exists m :: m in rows && m.id == id)
  }

  lemma OneMoreInTable(table: map<Uuid, MovementView>, front: seq<StockMovement>, last: StockMovement)
    requires TableOf(table, front) && forall m | m in front :: m.id != last.id
    ensures TableOf(table[last.id := ViewMovement(last)], front + [last])
  {
    var rows := front + [last];
    var more := table[last.id := ViewMovement(last)];
    forall id | id in more ensures exists m :: m in rows && m.id == id {
      if id == last.id {
        assert last in rows;
      } else {
        var m :| m in front && m.id == id;
        assert m in rows;
      }
    }
  }

  lemma {:induction false} MovementTableHolds(rows: seq<StockMovement>)
    requires DistinctRows(rows)
    ensures TableOf(MovementTable(rows), rows)
  {
    if rows != [] {
      var front, last := rows[..|rows| - 1], rows[|rows| - 1];
      MovementTableHolds(front);
      assert rows == front + [last];
      forall m | m in front ensures m.id != last.id {
        var i :| 0 <= i < |front| && front[i] == m;
        assert rows[i] == m && rows[|front|] == last;
      }
      OneMoreInTable(MovementTable(front), front, last);
    }
  }

  /** The account's rows keep the distinct ids of the ledger. */
  lemma {:induction false} AccountRowsDistinct(ms: seq<StockMovement>, userId: Uuid)
    requires DistinctRows(ms)
    ensures DistinctRows(AccountMovements(ms, userId))
    ensures forall m :: m in AccountMovements(ms, userId) <==> m in ms && m.userId == userId
  {
    if ms != [] {
      var front, last := ms[..|ms| - 1], ms[|ms| - 1];
      AccountRowsDistinct(front, userId);
      assert ms == front + [last];
      var rows := AccountMovements(front, userId);
      forall i | 0 <= i < |rows| ensures rows[i].id != last.id {
        assert rows[i] in front;
        var k :| 0 <= k < |front| && front[k] == rows[i];
        assert ms[k] == rows[i] && ms[|front|] == last;
      }
    }
  }

  /** A row of distinct ids occurs once in any other order of the rows, too. */
  lemma SameRowsDistinct(rows: seq<StockMovement>, others: seq<StockMovement>)
    requires DistinctRows(rows) && multiset(rows) == multiset(others)
    ensures DistinctRows(others)
  {
    forall i, j | 0 <= i < j < |others| ensures others[i].id != others[j].id {
      assert others[i] in multiset(rows) && others[j] in multiset(rows);
      if others[i].id == others[j].id {
        SameIdSameRow(rows, others[i], others[j]);
        AtMostOnce(rows, others[i]);
        TwiceThere(others, i, j);
      }
    }
  }

  lemma SameIdSameRow(rows: seq<StockMovement>, a: StockMovement, b: StockMovement)
    requires DistinctRows(rows) && a in rows && b in rows && a.id == b.id
    ensures a == b
  {
  }

  lemma {:induction false} AtMostOnce(rows: seq<StockMovement>, m: StockMovement)
    requires DistinctRows(rows)
    ensures multiset(rows)[m] <= 1
  {
    if rows != [] {
      var front, last := rows[..|rows| - 1], rows[|rows| - 1];
      AtMostOnce(front, m);
      assert rows == front + [last];
      forall i | 0 <= i < |front| ensures front[i].id != last.id {
        assert rows[i] == front[i] && rows[|front|] == last;
      }
      assert m == last ==> m !in multiset(front);
    }
  }

  lemma TwiceThere(rows: seq<StockMovement>, i: nat, j: nat)
    requires i < j < |rows| && rows[i] == rows[j]
    ensures multiset(rows)[rows[i]] >= 2
  {
    var front, back := rows[..j], rows[j..];
    assert rows == front + back;
    assert front[i] in multiset(front) && back[0] in multiset(back);
  }

  lemma SameTable(x: map<Uuid, MovementView>, y: map<Uuid, MovementView>, rows: seq<StockMovement>,
                  others: seq<StockMovement>)
    requires TableOf(x, rows) && TableOf(y, others) && forall m :: m in rows <==> m in others
    ensures x == y
  {
    assert forall id | id in x :: id in y && y[id] == x[id];
    assert forall id | id in y :: id in x;
  }

  lemma SameMembers<T>(rows: seq<T>, others: seq<T>)
    requires multiset(rows) == multiset(others)
    ensures forall m :: m in rows <==> m in others
  {
    forall m: T ensures m in rows <==> m in others {
      assert m in multiset(rows) <==> m in multiset(others);
    }
  }

  /** The order of the rows does not matter to the table they fill. */
  lemma TableAnyOrder(rows: seq<StockMovement>, others: seq<StockMovement>)
    requires DistinctRows(rows) && multiset(rows) == multiset(others)
    ensures MovementTable(rows) == MovementTable(others)
  {
    SameRowsDistinct(rows, others);
    MovementTableHolds(rows);
    MovementTableHolds(others);
    SameMembers(rows, others);
    SameTable(MovementTable(rows), MovementTable(others), rows, others);
  }

  lemma OneMoreTableRow(rows: seq<StockMovement>, m: StockMovement)
    ensures MovementTable(rows + [m]) == MovementTable(rows)[m.id := ViewMovement(m)]
  {
    assert (rows + [m])[..|rows|] == rows;
  }

  lemma {:induction false} MovementTableIsRows(ms: seq<StockMovement>, userId: Uuid)
    ensures MovementTable(AccountMovements(ms, userId)) == MovementRows(ms, userId)
  {
    if ms != [] {
      var front, m := ms[..|ms| - 1], ms[|ms| - 1];
      var rows := AccountMovements(front, userId);
      MovementTableIsRows(front, userId);
      if m.userId == userId {
        assert AccountMovements(ms, userId) == rows + [m];
        OneMoreTableRow(rows, m);
      } else {
        assert AccountMovements(ms, userId) == rows;
      }
    }
  }

  lemma InstalledMovements(t: Tables, userId: Uuid)
    requires LedgerSound(t)
    ensures MovementTable(InOrder(AccountMovements(t.movements, userId))) == View(t, userId).movements
  {
    var rows := AccountMovements(t.movements, userId);
    AccountRowsDistinct(t.movements, userId);
    TableAnyOrder(rows, InOrder(rows));
    MovementTableIsRows(t.movements, userId);
  }

  lemma InstalledRows(t: Tables, userId: Uuid, rows: seq<Product>)
    requires AccountProducts(t, userId, rows)
    ensures ProductTable(rows).Keys == ProductsOf(t, userId)
    ensures forall id | id in ProductsOf(t, userId) :: ProductTable(rows)[id] == ViewProduct(t.products[id])
  {
    ProductTableHolds(rows);
    forall id | id in ProductsOf(t, userId)
      ensures id in ProductTable(rows) && ProductTable(rows)[id] == ViewProduct(t.products[id])
    {
      var i :| 0 <= i < |rows| && rows[i].id == id;
      assert rows[i] == t.products[id];
    }
  }

  lemma InstalledProducts(t: Tables, userId: Uuid, rows: seq<Product>)
    requires AccountProducts(t, userId, rows)
    ensures ProductTable(rows) == View(t, userId).products
  {
    InstalledRows(t, userId, rows);
    assert View(t, userId).products.Keys == ProductsOf(t, userId);
  }

  lemma InstalledSums(t: Tables, userId: Uuid, rows: seq<LedgerBalance>)
    requires LedgerBalances(t, userId, rows)
    ensures BalanceTable(rows).Keys == ProductsOf(t, userId)
    ensures forall id | id in ProductsOf(t, userId) ::
      BalanceTable(rows)[id] == ReplicaBalance(LedgerQty(t.movements, userId, id), LedgerLast(t.movements, userId, id))
  {
    BalanceTableHolds(rows);
    forall id | id in ProductsOf(t, userId)
      ensures id in BalanceTable(rows)
      ensures BalanceTable(rows)[id] ==
        ReplicaBalance(LedgerQty(t.movements, userId, id), LedgerLast(t.movements, userId, id))
    {
      var i :| 0 <= i < |rows| && rows[i].productId == id;
      assert rows[i] == LedgerBalance(id, LedgerQty(t.movements, userId, id), LedgerLast(t.movements, userId, id));
    }
  }

  lemma InstalledBalances(t: Tables, userId: Uuid, rows: seq<LedgerBalance>)
    requires LedgerBalances(t, userId, rows)
    ensures BalanceTable(rows) == View(t, userId).balances
  {
    InstalledSums(t, userId, rows);
    assert View(t, userId).balances.Keys == ProductsOf(t, userId);
  }

  /** The installed rows are the account's view of the server. */
  lemma InstalledIsView(t: Tables, userId: Uuid, s: AccountSnapshot)
    requires LedgerSound(t) && SnapshotOf(t, userId, s)
    ensures Installed(s) == View(t, userId)
  {
    InstalledProducts(t, userId, s.products);
    InstalledBalances(t, userId, s.balances);
    InstalledMovements(t, userId);
  }

  /** So an installed snapshot holds the account, with every column. */
  lemma SnapshotHoldsAccount(t: Tables, userId: Uuid, s: AccountSnapshot)
    requires Valid(t) && SnapshotOf(t, userId, s)
    ensures HoldsAccount(Installed(s), t, userId)
  {
    InstalledIsView(t, userId, s);
    ViewHoldsAccount(t, userId);
  }

  // ----- Convergence under concurrent writers -----

  /** A step of the concurrent system moves an account's view by exactly the
      log entries it commits. */
  lemma StepReplicates(t: Tables, s: System, e: Event, userId: Uuid, after: nat, r: Replica)
    requires Valid(t) && Sound(t, s) && after <= s.committed.lastSeq
    requires ApplyAll(r, UserLog(s.committed.changeLog, userId, after)) == Ok(View(s.committed, userId))
    ensures var next := After(s, e).committed;
      ApplyAll(r, UserLog(next.changeLog, userId, after)) == Ok(View(next, userId))
  {
    if e.Commits? && Enabled(s, e) {
      if Writes(s.active[e.tx].decision) {
        WriteCommitReplicates(t, s, e.tx, userId, after, r);
      } else {
        CommittedReject(t, s, e.tx);
        SameView(s.committed, After(s, e).committed, userId);
      }
    }
  }

  lemma WriteCommitReplicates(t: Tables, s: System, tx: nat, userId: Uuid, after: nat, r: Replica)
    requires Valid(t) && Sound(t, s) && Enabled(s, Commits(tx)) && Writes(s.active[tx].decision)
    requires after <= s.committed.lastSeq
    requires ApplyAll(r, UserLog(s.committed.changeLog, userId, after)) == Ok(View(s.committed, userId))
    ensures var next := Install(s.committed, s.active[tx]);
      ApplyAll(r, UserLog(next.changeLog, userId, after)) == Ok(View(next, userId))
  {
    var x := s.active[tx];
    CommittedWrite(t, s, tx);
    RunValid(t, s.serial);
    CompleteReplicates(s.committed, x.delivery.who, x.delivery.op.opId, x.decision, x.delivery.clock, userId, after, r);
  }

  /** The replica follows the committed tables at instant n. */
  ghost predicate Follows(t: Tables, es: seq<Event>, n: nat, userId: Uuid, after: nat, r: Replica)
    requires n <= |es|
  {
    var at := Execute(Initial(t), es[..n]).committed;
    after <= at.lastSeq && ApplyAll(r, UserLog(at.changeLog, userId, after)) == Ok(View(at, userId))
  }

  lemma FollowsOneMore(t: Tables, es: seq<Event>, n: nat, userId: Uuid, after: nat, r: Replica)
    requires Valid(t) && n < |es| && Follows(t, es, n, userId, after, r)
    ensures Follows(t, es, n + 1, userId, after, r)
  {
    var before := Execute(Initial(t), es[..n]);
    ExecutionSound(t, es[..n]);
    CursorsInCommitOrder(t, es, n, n + 1);
    CursorsInCommitOrder(t, es, n, n);
    assert es[..n + 1][..n] == es[..n];
    StepReplicates(t, before, es[n], userId, after, r);
  }

  lemma FollowsAtFirst(t: Tables, es: seq<Event>, m: nat, userId: Uuid, s: AccountSnapshot)
    requires Valid(t) && m <= |es| && SnapshotOf(Execute(Initial(t), es[..m]).committed, userId, s)
    ensures Follows(t, es, m, userId, s.cursor, Installed(s))
  {
    var at := Execute(Initial(t), es[..m]).committed;
    Serializable(t, es[..m]);
    InstalledIsView(at, userId, s);
    UserLogMembers(at.changeLog, userId, s.cursor);
    StaleEntries(at, UserLog(at.changeLog, userId, s.cursor), userId);
  }

  lemma {:induction false} BootstrapFollows(t: Tables, es: seq<Event>, m: nat, n: nat, userId: Uuid,
                                              s: AccountSnapshot)
    requires Valid(t) && m <= n <= |es|
    requires SnapshotOf(Execute(Initial(t), es[..m]).committed, userId, s)
    ensures Follows(t, es, n, userId, s.cursor, Installed(s))
    decreases n
  {
    if n == m {
      FollowsAtFirst(t, es, m, userId, s);
    } else {
      BootstrapFollows(t, es, m, n - 1, userId, s);
      FollowsOneMore(t, es, n - 1, userId, s.cursor, Installed(s));
    }
  }

  /** Install the snapshot read at one instant of any interleaving of writers.
      At any later instant, apply the account's entries behind the snapshot's
      cursor: the replica then holds the account as of that later instant,
      column by column. Nothing committed in between is missed or applied
      twice. */
  lemma BootstrapConverges(t: Tables, es: seq<Event>, m: nat, n: nat, userId: Uuid, s: AccountSnapshot)
    requires Valid(t) && m <= n <= |es|
    requires SnapshotOf(Execute(Initial(t), es[..m]).committed, userId, s)
    ensures Follows(t, es, n, userId, s.cursor, Installed(s))
    ensures var applied := ApplyAll(Installed(s), UserLog(LogAt(t, es, n), userId, s.cursor));
      applied.Ok? && HoldsAccount(applied.value, Execute(Initial(t), es[..n]).committed, userId)
  {
    BootstrapFollows(t, es, m, n, userId, s);
    Serializable(t, es[..n]);
    ViewHoldsAccount(Execute(Initial(t), es[..n]).committed, userId);
  }
}
