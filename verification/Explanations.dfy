/** Rejected product operations look up the row that explains them in a
    statement of its own, after the one that failed. Under READ COMMITTED other
    transactions may commit in between. This module adds that later read to the
    concurrent system and proves that it affects nothing but the row shown: the
    rest is serializable as before, and what is shown is a state of the
    account's own product that the change log carries. */
module Explanations {
  import opened Prelude
  import opened Schema
  import opened SyncPolicy
  import opened Invariants
  import opened Runs
  import opened ProductLife
  import opened Concurrency

  datatype Step = Inner(event: Event) | Explains(tx: nat)

  /** The second read: the holder of the barcode, or the product itself. */
  ghost function Lookup(t: Tables, d: Delivery, reason: Reason): Option<ProductView> {
    match d.op.payload
    case UpsertProduct(id, fields) =>
      if reason.BarcodeConflict? then BarcodeOwnerState(t, d.who.userId, NormalizeOptional(fields.barcode))
      else OwnState(t, d.who.userId, id)
    case DeleteProduct(id, _) => OwnState(t, d.who.userId, id)
    case _ => None
  }

  predicate LooksUp(x: Pending) {
    && x.decision.Reject? && x.decision.reason in {BarcodeConflict, VersionConflict, ProductDeleted}
    && (x.delivery.op.payload.UpsertProduct? || x.delivery.op.payload.DeleteProduct?)
  }

  ghost predicate CanExplain(s: System, tx: nat) {
    tx in s.active && LooksUp(s.active[tx])
  }

  function ShowingRow(x: Pending, state: Option<ProductView>): Pending {
    if x.decision.Reject? then x.(decision := x.decision.(serverState := state)) else x
  }

  /** The concurrent system with the second read. */
  ghost function Move(s: System, e: Step): System {
    match e
    case Inner(event) => After(s, event)
    case Explains(tx) =>
      if !CanExplain(s, tx) then s
      else
        var x := s.active[tx];
        s.(active := s.active[tx := ShowingRow(x, Lookup(s.committed, x.delivery, x.decision.reason))])
  }

  ghost function Unfold(s: System, es: seq<Step>): System {
    if es == [] then s else Move(Unfold(s, es[..|es| - 1]), es[|es| - 1])
  }

  /** The execution without the second reads. */
  function Inners(es: seq<Step>): seq<Event> {
    if es == [] then []
    else Inners(es[..|es| - 1]) + (if es[|es| - 1].Inner? then [es[|es| - 1].event] else [])
  }

  // ----- What the second reads returned -----

  /** For the outcomes stored so far, and for the open transactions. */
  datatype Notes = Notes(shown: map<OperationKey, Option<ProductView>>, looked: map<nat, Option<ProductView>>)

  ghost function Noted(s: System, n: Notes, e: Step): Notes {
    match e
    case Explains(tx) =>
      if CanExplain(s, tx) then
        var found := Lookup(s.committed, s.active[tx].delivery, s.active[tx].decision.reason);
        n.(looked := n.looked[tx := found])
      else n
    case Inner(Commits(tx)) =>
      if Enabled(s, Commits(tx)) && tx in n.looked
      then Notes(n.shown[s.active[tx].delivery.Key() := n.looked[tx]], n.looked - {tx})
      else n
    case Inner(Aborts(tx)) => n.(looked := n.looked - {tx})
    case _ => n
  }

  ghost function NotesOf(s: System, es: seq<Step>): Notes {
    if es == [] then Notes(map[], map[])
    else
      var front := es[..|es| - 1];
      Noted(Unfold(s, front), NotesOf(s, front), es[|es| - 1])
  }

  function ShowingOutcome(row: SyncOperation, state: Option<ProductView>): SyncOperation {
    if row.response.Encoded? then row.(response := Encoded(row.response.result.(serverState := state))) else row
  }

  /** The same tables, with these explanations in the outcomes. */
  function WithShown(t: Tables, shown: map<OperationKey, Option<ProductView>>): Tables {
    t.(syncOps := map key | key in t.syncOps ::
         if key in shown then ShowingOutcome(t.syncOps[key], shown[key]) else t.syncOps[key])
  }

  // ----- The second read affects nothing else -----

  ghost predicate SamePending(actual: map<nat, Pending>, model: map<nat, Pending>,
                              looked: map<nat, Option<ProductView>>)
  {
    && actual.Keys == model.Keys && looked.Keys <= model.Keys
    && (forall tx | tx in looked :: model[tx].decision.Reject?)
    && forall tx | tx in model :: actual[tx] == if tx in looked then ShowingRow(model[tx], looked[tx]) else model[tx]
  }

  ghost predicate Matches(actual: System, model: System, n: Notes) {
    && actual.committed == WithShown(model.committed, n.shown) && n.shown.Keys <= model.committed.syncOps.Keys
    && (forall key | key in n.shown ::
          model.committed.syncOps[key].status.Rejected? && model.committed.syncOps[key].response.Encoded?)
    && actual.holder == model.holder && actual.serial == model.serial
    && SamePending(actual.active, model.active, n.looked)
  }

  lemma SameDecision(actual: Tables, model: Tables, shown: map<OperationKey, Option<ProductView>>, d: Delivery)
    requires actual == WithShown(model, shown)
    ensures Decide(actual, d.who, d.op, d.clock.transaction) == Decide(model, d.who, d.op, d.clock.transaction)
    ensures CanReserve(actual, d.who, d.op.opId) <==> CanReserve(model, d.who, d.op.opId)
  {
    DecideIgnoresOutcomes(model, actual.syncOps, d.who, d.op, d.clock.transaction);
  }

  lemma SameLocks(x: Pending, state: Option<ProductView>)
    ensures LocksOf(ShowingRow(x, state).decision) == LocksOf(x.decision)
    ensures Writes(ShowingRow(x, state).decision) == Writes(x.decision)
    ensures ShowingRow(x, state).delivery == x.delivery && ShowingRow(x, state).mark == x.mark
    ensures ShowingRow(x, state).cursor == x.cursor
  {
  }

  lemma SameToDecide(actual: System, model: System, n: Notes, tx: nat, d: Delivery)
    requires Matches(actual, model, n)
    ensures CanDecide(actual, tx, d) <==> CanDecide(model, tx, d)
  {
    SameDecision(actual.committed, model.committed, n.shown, d);
    assert forall y | y in model.active :: LocksOf(actual.active[y].decision) == LocksOf(model.active[y].decision);
  }

  lemma MatchesDecides(actual: System, model: System, n: Notes, tx: nat, d: Delivery)
    requires Matches(actual, model, n)
    ensures Matches(After(actual, Decides(tx, d)), After(model, Decides(tx, d)), n)
  {
    SameToDecide(actual, model, n, tx, d);
    SameDecision(actual.committed, model.committed, n.shown, d);
    var decision := Decide(model.committed, d.who, d.op, d.clock.transaction);
    assert BalanceRow(actual.committed, decision, d.clock.transaction) ==
      BalanceRow(model.committed, decision, d.clock.transaction);
  }

  lemma MatchesAllocates(actual: System, model: System, n: Notes, tx: nat)
    requires Matches(actual, model, n)
    ensures Matches(After(actual, Allocates(tx)), After(model, Allocates(tx)), n)
  {
  }

  lemma MatchesAborts(actual: System, model: System, n: Notes, tx: nat)
    requires Matches(actual, model, n)
    ensures Matches(After(actual, Aborts(tx)), After(model, Aborts(tx)), Noted(actual, n, Inner(Aborts(tx))))
  {
  }

  lemma MatchesExplains(actual: System, model: System, n: Notes, tx: nat)
    requires Matches(actual, model, n)
    ensures Matches(Move(actual, Explains(tx)), model, Noted(actual, n, Explains(tx)))
  {
  }

  lemma StoreShown(rows: map<OperationKey, SyncOperation>, shown: map<OperationKey, Option<ProductView>>,
                   key: OperationKey, row: SyncOperation)
    requires key !in shown
    ensures (map k | k in rows[key := row] ::
               if k in shown then ShowingOutcome(rows[key := row][k], shown[k]) else rows[key := row][k])
         == (map k | k in rows :: if k in shown then ShowingOutcome(rows[k], shown[k]) else rows[k])[key := row]
  {
  }

  lemma InstallShown(actual: Tables, model: Tables, shown: map<OperationKey, Option<ProductView>>, x: Pending)
    requires actual == WithShown(model, shown) && x.delivery.Key() !in shown
    requires Writes(x.decision) ==> x.cursor.Some?
    ensures Install(actual, x) == WithShown(Install(model, x), shown)
  {
    StoreShown(model.syncOps, shown, x.delivery.Key(),
               OutcomeRow(x.delivery.who, ResultWith(x.delivery.op.opId, x.decision, x.cursor), x.delivery.clock));
  }

  lemma InstallExplained(actual: Tables, model: Tables, shown: map<OperationKey, Option<ProductView>>, x: Pending,
                         state: Option<ProductView>)
    requires actual == WithShown(model, shown) && x.delivery.Key() !in shown && x.decision.Reject?
    ensures Install(actual, ShowingRow(x, state)) == WithShown(Install(model, x), shown[x.delivery.Key() := state])
  {
    assert Install(actual, ShowingRow(x, state)).syncOps ==
      WithShown(Install(model, x), shown[x.delivery.Key() := state]).syncOps;
  }

  lemma SamePendingAfterCommit(actual: System, model: System, n: Notes, tx: nat)
    requires Matches(actual, model, n) && Enabled(model, Commits(tx))
    ensures Enabled(actual, Commits(tx)) && Position(actual, tx) == Position(model, tx)
    ensures SamePending(After(actual, Commits(tx)).active, After(model, Commits(tx)).active, n.looked - {tx})
  {
  }

  lemma MatchesCommits(actual: System, model: System, n: Notes, tx: nat)
    requires Matches(actual, model, n)
    requires tx in model.active ==> model.active[tx].delivery.Key() !in model.committed.syncOps
    ensures Matches(After(actual, Commits(tx)), After(model, Commits(tx)), Noted(actual, n, Inner(Commits(tx))))
  {
    if Enabled(model, Commits(tx)) {
      SamePendingAfterCommit(actual, model, n, tx);
      var x := model.active[tx];
      if tx in n.looked {
        InstallExplained(actual.committed, model.committed, n.shown, x, n.looked[tx]);
      } else {
        InstallShown(actual.committed, model.committed, n.shown, x);
        assert n.looked - {tx} == n.looked;
      }
    } else {
      assert !Enabled(actual, Commits(tx));
    }
  }

  lemma MatchesMove(t: Tables, actual: System, model: System, n: Notes, e: Step)
    requires Sound(t, model) && Matches(actual, model, n)
    ensures Matches(Move(actual, e), if e.Inner? then After(model, e.event) else model, Noted(actual, n, e))
  {
    match e
    case Explains(tx) => MatchesExplains(actual, model, n, tx);
    case Inner(Decides(tx, d)) => MatchesDecides(actual, model, n, tx, d);
    case Inner(Allocates(tx)) => MatchesAllocates(actual, model, n, tx);
    case Inner(Aborts(tx)) => MatchesAborts(actual, model, n, tx);
    case Inner(Commits(tx)) =>
      if tx in model.active {
        assert PendingSound(t, model, model.active[tx]);
      }
      MatchesCommits(actual, model, n, tx);
  }

  lemma {:induction false} ExecutionMatches(t: Tables, es: seq<Step>)
    requires Valid(t)
    ensures Matches(Unfold(Initial(t), es), Execute(Initial(t), Inners(es)), NotesOf(Initial(t), es))
  {
    if es == [] {
      assert WithShown(t, map[]).syncOps == t.syncOps;
    } else {
      var front, e := es[..|es| - 1], es[|es| - 1];
      var model := Execute(Initial(t), Inners(front));
      ExecutionMatches(t, front);
      ExecutionSound(t, Inners(front));
      MatchesMove(t, Unfold(Initial(t), front), model, NotesOf(Initial(t), front), e);
      if e.Inner? {
        assert (Inners(front) + [e.event])[..|Inners(front)|] == Inners(front);
      } else {
        assert Inners(front) + [] == Inners(front);
      }
    }
  }

  // ----- Serializability up to the explanations -----

  lemma ShownOutcomeSound(t: Tables, shown: map<OperationKey, Option<ProductView>>, key: OperationKey)
    requires key in t.syncOps && OutcomeSound(t, key)
    requires key in shown ==> t.syncOps[key].status.Rejected?
    ensures OutcomeSound(WithShown(t, shown), key) && CursorOf(WithShown(t, shown), key) == CursorOf(t, key)
  {
  }

  lemma ShownKeepsOutcomes(t: Tables, shown: map<OperationKey, Option<ProductView>>)
    requires OutcomesMatchLog(t) && forall key | key in shown && key in t.syncOps :: t.syncOps[key].status.Rejected?
    ensures OutcomesMatchLog(WithShown(t, shown))
  {
    var next := WithShown(t, shown);
    forall key | key in next.syncOps ensures OutcomeSound(next, key) && CursorOf(next, key) == CursorOf(t, key) {
      assert OutcomeSound(t, key);
      ShownOutcomeSound(t, shown, key);
    }
    forall i | 1 <= i <= |next.changeLog| ensures HasOutcome(next, i) {
      assert HasOutcome(t, i);
      var key :| key in t.syncOps && CursorOf(t, key) == Some(i);
      assert key in next.syncOps && CursorOf(next, key) == Some(i);
    }
  }

  lemma ShownKeepsLedgers(t: Tables, shown: map<OperationKey, Option<ProductView>>)
    requires LedgerSound(t) && LogReflected(t) && VersionsChained(t)
    ensures LedgerSound(WithShown(t, shown)) && LogReflected(WithShown(t, shown))
    ensures VersionsChained(WithShown(t, shown))
  {
    var next := WithShown(t, shown);
    forall i | 0 <= i < |next.movements| ensures RowSound(next, i) {
      assert RowSound(t, i);
    }
    forall i | 0 <= i < |next.changeLog| ensures Reflected(next, next.changeLog[i]) {
      assert Reflected(t, t.changeLog[i]);
    }
    forall id: Uuid ensures Chained(next, id) {
      assert Chained(t, id);
    }
  }

  lemma ShownKeepsValid(t: Tables, shown: map<OperationKey, Option<ProductView>>)
    requires Valid(t) && forall key | key in shown && key in t.syncOps :: t.syncOps[key].status.Rejected?
    ensures Valid(WithShown(t, shown))
  {
    ShownKeepsOutcomes(t, shown);
    ShownKeepsLedgers(t, shown);
  }

  /** Whatever interleaving, second reads included: the committed tables are
      those of a run of the committed operations one after another, but for the
      explanations of rejected operations that were read apart. The invariant
      holds throughout. */
  lemma SerializableUpToExplanations(t: Tables, es: seq<Step>)
    requires Valid(t)
    ensures var s, shown := Unfold(Initial(t), es), NotesOf(Initial(t), es).shown;
      && s.committed == WithShown(Run(t, s.serial), shown)
      && (forall key | key in shown :: key in s.committed.syncOps && s.committed.syncOps[key].status.Rejected?)
      && Valid(s.committed) && OncePerKey(s.serial)
      && forall d | d in s.serial :: Submitted(Inners(es), d)
  {
    ExecutionMatches(t, es);
    Serializable(t, Inners(es));
    ShownKeepsValid(Run(t, Unfold(Initial(t), es).serial), NotesOf(Initial(t), es).shown);
  }

  lemma {:induction false} NothingShown(s: System, es: seq<Step>)
    requires forall i | 0 <= i < |es| :: es[i].Inner?
    ensures NotesOf(s, es) == Notes(map[], map[])
  {
    if es != [] {
      var front := es[..|es| - 1];
      assert forall i | 0 <= i < |front| :: front[i] == es[i];
      NothingShown(s, front);
      var none := NotesOf(s, front).looked;
      assert forall tx: nat :: none - {tx} == none;
    }
  }

  /** Where no explanation is read apart, the tables are exactly the run's. */
  lemma SerializableWithoutLookups(t: Tables, es: seq<Step>)
    requires Valid(t) && forall i | 0 <= i < |es| :: es[i].Inner?
    ensures Unfold(Initial(t), es).committed == Run(t, Unfold(Initial(t), es).serial)
  {
    SerializableUpToExplanations(t, es);
    NothingShown(Initial(t), es);
    var run := Run(t, Unfold(Initial(t), es).serial);
    assert WithShown(run, map[]).syncOps == run.syncOps;
  }

  // ----- What a rejection shows is genuine -----

  /** A state of a product of the account that the change log carries. */
  ghost predicate Logged(t: Tables, userId: Uuid, v: ProductView) {
    v.id in t.products && t.products[v.id].userId == userId && v in History(t.changeLog, v.id)
  }

  ghost predicate Shows(t: Tables, userId: Uuid, state: Option<ProductView>) {
    state.Some? ==> Logged(t, userId, state.value)
  }

  /** Every committed state of a product is in the log. */
  lemma CurrentRowLogged(t: Tables, userId: Uuid, id: Uuid)
    requires Keyed(t) && VersionsChained(t)
    ensures Shows(t, userId, OwnState(t, userId, id))
  {
    assert Chained(t, id);
    if id in t.products {
      var h := History(t.changeLog, id);
      assert h[|h| - 1] in h;
    }
  }

  lemma BarcodeOwnerLogged(t: Tables, userId: Uuid, barcode: Option<string>)
    requires Keyed(t) && VersionsChained(t)
    ensures Shows(t, userId, BarcodeOwnerState(t, userId, barcode))
  {
    if BarcodeOwnerState(t, userId, barcode).Some? {
      var owner := ActiveProductByBarcode(t.products, userId, barcode.value).value;
      CurrentRowLogged(t, userId, owner.id);
    }
  }

  lemma LookupLogged(t: Tables, d: Delivery, reason: Reason)
    requires Keyed(t) && VersionsChained(t)
    ensures Shows(t, d.who.userId, Lookup(t, d, reason))
  {
    match d.op.payload
    case UpsertProduct(id, fields) =>
      CurrentRowLogged(t, d.who.userId, id);
      BarcodeOwnerLogged(t, d.who.userId, NormalizeOptional(fields.barcode));
    case DeleteProduct(id, _) => CurrentRowLogged(t, d.who.userId, id);
    case _ =>
  }

  /** What an operation is rejected with at first is such a lookup as well. */
  lemma DecisionLogged(t: Tables, d: Delivery)
    requires Keyed(t) && VersionsChained(t)
    ensures var decision := Decide(t, d.who, d.op, d.clock.transaction);
      decision.Reject? ==> Shows(t, d.who.userId, decision.serverState)
  {
    var decision := Decide(t, d.who, d.op, d.clock.transaction);
    if decision.Reject? && decision.serverState.Some? {
      LookupLogged(t, d, decision.reason);
      assert decision.serverState == Lookup(t, d, decision.reason);
    }
  }

  /** With nothing committed in between, the second read shows what the
      decision showed. */
  lemma LookupRepeats(t: Tables, d: Delivery)
    ensures var decision := Decide(t, d.who, d.op, d.clock.transaction);
      !d.op.payload.AddMovement? && decision.Reject? ==>
        decision.reason in {BarcodeConflict, VersionConflict, ProductDeleted} ==>
          decision.serverState == Lookup(t, d, decision.reason)
  {
  }

  /** After it, a rejection for a stale version or a deleted product shows the
      product as committed at that moment, if it is the account's own; one for
      a barcode shows its active holder, if the account has one. */
  lemma SecondReadShows(s: System, tx: nat, id: Uuid)
    requires tx in s.active && s.active[tx].decision.Reject?
    requires s.active[tx].decision.reason in {BarcodeConflict, VersionConflict, ProductDeleted}
    requires var payload := s.active[tx].delivery.op.payload;
      (payload.UpsertProduct? || payload.DeleteProduct?) && payload.id == id
    ensures var x, payload := s.active[tx], s.active[tx].delivery.op.payload;
      var t, userId := s.committed, x.delivery.who.userId;
      var state := Move(s, Explains(tx)).active[tx].decision.serverState;
      && (!(payload.UpsertProduct? && x.decision.reason.BarcodeConflict?) ==>
            if id in t.products && t.products[id].userId == userId then state == Some(ViewProduct(t.products[id]))
            else state == None)
      && (payload.UpsertProduct? && x.decision.reason.BarcodeConflict? ==>
            if state.None? then forall q | q in t.products :: !HoldsFor(t, userId, payload.fields.barcode, q)
            else exists q | q in t.products ::
                   HoldsFor(t, userId, payload.fields.barcode, q) && state == Some(ViewProduct(t.products[q])))
  {
    var x, payload := s.active[tx], s.active[tx].delivery.op.payload;
    var t, userId := s.committed, x.delivery.who.userId;
    if payload.UpsertProduct? && x.decision.reason.BarcodeConflict? && NormalizeOptional(payload.fields.barcode).Some? {
      var barcode := payload.fields.barcode.value;
      assert forall q | q in t.products :: HoldsFor(t, userId, Some(barcode), q) <==>
                                             q in ActiveOwners(t.products, userId, barcode);
    }
  }

  predicate HoldsFor(t: Tables, userId: Uuid, barcode: Option<string>, q: Uuid)
    requires q in t.products
  {
    && barcode.Some? && barcode.value != "" && t.products[q].userId == userId && t.products[q].deletedAt == None
    && t.products[q].fields.barcode == barcode
  }

  /** Logs only grow, and products keep their account. */
  ghost predicate GrowsTo(t: Tables, next: Tables) {
    t.changeLog <= next.changeLog
      && forall id | id in t.products :: id in next.products && next.products[id].userId == t.products[id].userId
  }

  lemma ShowsStays(t: Tables, next: Tables, userId: Uuid, state: Option<ProductView>)
    requires Shows(t, userId, state) && GrowsTo(t, next)
    ensures Shows(next, userId, state)
  {
    if state.Some? {
      HistoryPrefix(next.changeLog, |t.changeLog|, state.value.id);
      assert next.changeLog[..|t.changeLog|] == t.changeLog;
      var i :|
        0 <= i < |History(t.changeLog, state.value.id)| && History(t.changeLog, state.value.id)[i] == state.value;
      assert History(next.changeLog, state.value.id)[i] == state.value;
    }
  }

  lemma CompleteGrows(t: Tables, who: Identity, opId: Uuid, d: Decision, clock: Clock)
    requires !d.Abandon? && Admissible(t, who, d)
    ensures GrowsTo(t, Complete(t, who, opId, d, clock))
  {
  }

  lemma CommitGrows(t: Tables, model: System, tx: nat)
    requires Valid(t) && Sound(t, model) && Enabled(model, Commits(tx))
    ensures GrowsTo(model.committed, After(model, Commits(tx)).committed)
  {
    var x := model.active[tx];
    if Writes(x.decision) {
      CommittedWrite(t, model, tx);
      CompleteGrows(model.committed, x.delivery.who, x.delivery.op.opId, x.decision, x.delivery.clock);
    }
  }

  lemma MoveGrows(t: Tables, actual: System, model: System, n: Notes, e: Step)
    requires Valid(t) && Sound(t, model) && Matches(actual, model, n)
    ensures GrowsTo(actual.committed, Move(actual, e).committed)
  {
    MatchesMove(t, actual, model, n, e);
    if e.Inner? && e.event.Commits? && Enabled(model, e.event) {
      CommitGrows(t, model, e.event.tx);
    }
  }

  function StateOf(row: SyncOperation): Option<ProductView> {
    if row.response.Encoded? then row.response.result.serverState else None
  }

  ghost predicate StoredLogged(t: Tables, s: System) {
    forall key | key in s.committed.syncOps && key !in t.syncOps ::
      Shows(s.committed, s.committed.syncOps[key].userId, StateOf(s.committed.syncOps[key]))
  }

  ghost predicate PendingLogged(s: System) {
    forall tx | tx in s.active && s.active[tx].decision.Reject? ::
      Shows(s.committed, s.active[tx].delivery.who.userId, s.active[tx].decision.serverState)
  }

  lemma StoredStaysLogged(t: Tables, s: System, e: Step)
    requires StoredLogged(t, s) && PendingLogged(s) && GrowsTo(s.committed, Move(s, e).committed)
    ensures StoredLogged(t, Move(s, e))
  {
    var next := Move(s, e);
    forall key | key in next.committed.syncOps && key !in t.syncOps
      ensures Shows(next.committed, next.committed.syncOps[key].userId, StateOf(next.committed.syncOps[key]))
    {
      if key in s.committed.syncOps && next.committed.syncOps[key] == s.committed.syncOps[key] {
        ShowsStays(s.committed, next.committed, s.committed.syncOps[key].userId, StateOf(s.committed.syncOps[key]));
      } else {
        var x := s.active[e.event.tx];
        if x.decision.Reject? {
          ShowsStays(s.committed, next.committed, x.delivery.who.userId, x.decision.serverState);
        }
      }
    }
  }

  lemma PendingStaysLogged(s: System, e: Step)
    requires PendingLogged(s) && GrowsTo(s.committed, Move(s, e).committed)
    requires Keyed(s.committed) && VersionsChained(s.committed)
    ensures PendingLogged(Move(s, e))
  {
    var next := Move(s, e);
    forall tx | tx in next.active && next.active[tx].decision.Reject?
      ensures Shows(next.committed, next.active[tx].delivery.who.userId, next.active[tx].decision.serverState)
    {
      if e.Inner? && e.event.Decides? && e.event.tx == tx && tx !in s.active {
        DecisionLogged(s.committed, e.event.delivery);
      } else {
        var x := s.active[tx];
        ShowsStays(s.committed, next.committed, x.delivery.who.userId, x.decision.serverState);
        LookupLogged(s.committed, x.delivery, x.decision.reason);
      }
    }
  }

  lemma {:induction false} LoggedThroughout(t: Tables, es: seq<Step>)
    requires Valid(t)
    ensures StoredLogged(t, Unfold(Initial(t), es)) && PendingLogged(Unfold(Initial(t), es))
  {
    if es != [] {
      var front, e := es[..|es| - 1], es[|es| - 1];
      var s := Unfold(Initial(t), front);
      LoggedThroughout(t, front);
      ExecutionMatches(t, front);
      ExecutionSound(t, Inners(front));
      MoveGrows(t, s, Execute(Initial(t), Inners(front)), NotesOf(Initial(t), front), e);
      SerializableUpToExplanations(t, front);
      StoredStaysLogged(t, s, e);
      PendingStaysLogged(s, e);
    }
  }

  /** Every rejection stored in the course of an execution that shows a product
      shows a state of a product of its own account that some committed
      operation gave it, and never another account's. */
  lemma ExplanationsGenuine(t: Tables, es: seq<Step>, key: OperationKey)
    requires Valid(t) && key in Unfold(Initial(t), es).committed.syncOps && key !in t.syncOps
    ensures var s := Unfold(Initial(t), es);
      Shows(s.committed, s.committed.syncOps[key].userId, StateOf(s.committed.syncOps[key]))
  {
    LoggedThroughout(t, es);
  }
}
