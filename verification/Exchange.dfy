/** The synchronization exchange: a request pushes its operations one by one,
    each in a transaction of its own, and then pulls one page of changes. */
module Exchange {
  import opened Prelude
  import opened Schema
  import opened SyncPolicy
  import opened ChangeFeed
  import opened Invariants
  import opened Runs
  import opened Store
  import opened Services
  import opened Replication
  import E = Effects

  // ----- Requests and responses -----

  datatype Limits = Limits(maxOperations: nat, maxChanges: nat)

  datatype SyncRequest = SyncRequest(deviceId: Uuid, cursor: int, maxChanges: int, clientTime: Timestamp,
                                     ops: seq<Operation>)

  /** A stored outcome, or the transient report of a failed transaction. */
  datatype ItemResult = Outcome(result: OperationResult) | InternalError(opId: Uuid)
  {
    function OpId(): Uuid {
      if Outcome? then result.opId else opId
    }
  }

  datatype SyncResponse = SyncResponse(results: seq<ItemResult>, page: Page, serverTime: Timestamp)

  datatype HandlerError =
    | InvalidRequest | RequestDeviceMismatch | InvalidCaller | DeviceNotRegistered
    | InvalidCursor | InvalidLimit | Unavailable

  predicate ValidRequest(r: SyncRequest, limits: Limits) {
    && r.deviceId != NIL_UUID && r.cursor >= 0 && 0 < r.maxChanges <= limits.maxChanges
    && r.clientTime != ZERO_TIME && |r.ops| <= limits.maxOperations
    && forall i | 0 <= i < |r.ops| :: ValidOperation(r.ops[i])
  }

  /** The validator that every response passes before it is encoded. */
  predicate ValidResponse(r: SyncResponse, limits: Limits) {
    && r.serverTime != ZERO_TIME && r.page.nextCursor >= 0
    && |r.results| <= limits.maxOperations && |r.page.changes| <= limits.maxChanges
    && (forall i | 0 <= i < |r.results| ::
          r.results[i].OpId() != NIL_UUID && (r.results[i].Outcome? ==> ValidResult(r.results[i].result)))
    && (forall i | 0 <= i < |r.page.changes| :: r.page.changes[i].cursor > 0)
    && (forall i, j | 0 <= i < j < |r.page.changes| :: r.page.changes[i].cursor < r.page.changes[j].cursor)
    && (r.page.changes != [] ==> r.page.nextCursor >= r.page.changes[|r.page.changes| - 1].cursor)
  }

  // ----- The pull page -----

  /** The feed, built entry by entry: its cursor is that of the last one. */
  method BuildFeed(changes: seq<ChangeLogEntry>, after: int, hasMore: bool) returns (page: Page)
    ensures page == Page(changes, if changes == [] then after else changes[|changes| - 1].cursor, hasMore)
  {
    page := Page([], after, hasMore);
    for i := 0 to |changes|
      invariant page == Page(changes[..i], if i == 0 then after else changes[i - 1].cursor, hasMore)
    {
      page := page.(changes := page.changes + [changes[i]], nextCursor := changes[i].cursor);
    }
    assert changes[..|changes|] == changes;
  }

  /** One page in one repeatable-read transaction. One row more than the page
      holds is requested, and its presence is what `hasMore` reports. */
  method ListChanges(db: Database, userId: Uuid, after: int, max: int, fault: Fault, now: Timestamp)
    returns (r: Result<Page, HandlerError>)
    requires db.Valid() && !db.inTransaction
    modifies db
    ensures db.Valid() && !db.inTransaction && db.Tables() == old(db.Tables())
    ensures userId == NIL_UUID ==> r == Err(InvalidCaller)
    ensures userId != NIL_UUID && after < 0 ==> r == Err(InvalidCursor)
    ensures userId != NIL_UUID && after >= 0 && !(0 < max < MAX_INT32) ==> r == Err(InvalidLimit)
    ensures r.Ok? ==> max > 0 && r.value == PageOf(db.changeLog, userId, after, max)
    ensures r.Err? ==> r.error in {InvalidCaller, InvalidCursor, InvalidLimit, HandlerError.Unavailable}
    ensures fault.Healthy? && userId != NIL_UUID && after >= 0 && 0 < max < MAX_INT32 ==> r.Ok?
  {
    if userId == NIL_UUID {
      return Err(InvalidCaller);
    }
    if after < 0 {
      return Err(InvalidCursor);
    }
    if max <= 0 || max >= MAX_INT32 {
      return Err(InvalidLimit);
    }
    db.Begin(fault, now);
    var listed := db.ListChangeLog(userId, after, max + 1);
    if !listed.Row? {
      db.Rollback();
      return Err(HandlerError.Unavailable);
    }
    var changes := listed.value;
    var hasMore := |changes| > max;
    if hasMore {
      changes := changes[..max];
    }
    LookAhead(UserLog(db.changeLog, userId, after), max);
    var page := BuildFeed(changes, after, hasMore);
    var committed := db.Commit();
    r := if committed then Ok(page) else Err(HandlerError.Unavailable);
  }

  /** One row beyond the page is enough to know whether there are more. */
  lemma LookAhead(all: seq<ChangeLogEntry>, max: nat)
    ensures var listed := if |all| > max + 1 then all[..max + 1] else all;
      && (|listed| > max <==> |all| > max)
      && (if |listed| > max then listed[..max] else listed) == (if |all| > max then all[..max] else all)
  {
  }

  method ValidateDevice(db: Database, userId: Uuid, deviceId: Uuid, fault: Fault, now: Timestamp)
    returns (e: Option<HandlerError>)
    requires db.Valid() && !db.inTransaction
    modifies db
    ensures db.Valid() && !db.inTransaction && db.Tables() == old(db.Tables())
    ensures e.Some? ==> e.value in {InvalidCaller, DeviceNotRegistered, HandlerError.Unavailable}
    ensures e.None? ==> DeviceOwned(db.Tables(), userId, deviceId) && NIL_UUID !in {userId, deviceId}
    ensures fault.Healthy? && NIL_UUID !in {userId, deviceId} ==>
      e == if deviceId in db.devices && db.devices[deviceId] == userId then None else Some(DeviceNotRegistered)
  {
    if userId == NIL_UUID || deviceId == NIL_UUID {
      return Some(InvalidCaller);
    }
    db.Begin(fault, now);
    var device := db.GetDevice(userId, deviceId);
    if !device.Row? {
      db.Rollback();
      return Some(if device.NoRows? then DeviceNotRegistered else HandlerError.Unavailable);
    }
    var committed := db.Commit();
    e := if committed then None else Some(HandlerError.Unavailable);
  }

  // ----- Transactions of other requests -----

  /** An operation that another request submits, and how its transaction fares. */
  datatype Submission = Submission(who: Identity, op: Operation, clock: Clock, fault: Fault)

  ghost predicate Submits(d: Delivery, s: Submission) {
    d.who == s.who && d.op == s.op && d.clock == s.clock
  }

  /** Some deliveries, one for each submission in order. */
  ghost predicate DeliveredAs(ds: seq<Delivery>, subs: seq<Submission>) {
    |ds| == |subs| && forall i | 0 <= i < |ds| :: Submits(ds[i], subs[i])
  }

  /** One operation, as a delivery of the run that the tables follow. */
  method Submit(db: Database, s: Submission) returns (r: Result<OperationResult, SyncError>, ghost d: Delivery)
    requires db.Valid() && !db.inTransaction
    modifies db
    ensures db.Valid() && !db.inTransaction
    ensures Submits(d, s) && db.Tables() == Deliver(old(db.Tables()), d)
    ensures Reply(old(db.Tables()), d) == (if r.Ok? then Some(r.value) else None)
    ensures s.fault.Healthy? ==> (r.Ok? <==> Process(old(db.Tables()), s.who, s.op, s.clock).Done?)
  {
    ghost var before := db.Tables();
    r := ProcessOperation(db, s.who, s.op, s.clock, s.fault);
    ghost var fate :| var e := Delivery(s.who, s.op, s.clock, fate);
      && db.Tables() == Deliver(before, e)
      && Reply(before, e) == (if r.Ok? then Some(r.value) else None);
    d := Delivery(s.who, s.op, s.clock, fate);
  }

  /** What other requests commit meanwhile. */
  method Elsewhere(db: Database, subs: seq<Submission>) returns (ghost ds: seq<Delivery>)
    requires db.Valid() && !db.inTransaction
    modifies db
    ensures db.Valid() && !db.inTransaction
    ensures DeliveredAs(ds, subs) && db.Tables() == Run(old(db.Tables()), ds)
  {
    ghost var start := db.Tables();
    ds := [];
    for i := 0 to |subs|
      invariant db.Valid() && !db.inTransaction
      invariant DeliveredAs(ds, subs[..i]) && db.Tables() == Run(start, ds)
    {
      var _, d := Submit(db, subs[i]);
      RunStep(start, ds, d);
      assert subs[..i + 1] == subs[..i] + [subs[i]];
      ds := ds + [d];
    }
    assert subs[..|subs|] == subs;
  }

  // ----- The push loop -----

  function ItemOf(reply: Option<OperationResult>, opId: Uuid): ItemResult {
    if reply.Some? then Outcome(reply.value) else InternalError(opId)
  }

  /** An outcome always names the operation it was asked for, and is valid. */
  lemma OutcomeNamesOperation(t: Tables, d: Delivery)
    ensures Reply(t, d).Some? ==>
      Reply(t, d).value.opId == d.op.opId && d.op.opId != NIL_UUID && ValidResult(Reply(t, d).value)
  {
  }

  /** The clocks and the luck of every transaction that a request opens, and
      what other requests commit before each of its operations and before its
      pull. */
  datatype Circumstances = Circumstances(
    device: Fault, clocks: seq<Clock>, faults: seq<Fault>, others: seq<seq<Submission>>, feed: Fault, now: Timestamp)

  predicate Fitting(c: Circumstances, ops: seq<Operation>) {
    |c.clocks| == |c.faults| == |ops| && |c.others| == |ops| + 1
  }

  /** The request's own operations within the run: one delivery for each, in
      order, answered with what that delivery did. */
  ghost predicate AnsweredAt(t: Tables, ds: seq<Delivery>, who: Identity, ops: seq<Operation>, c: Circumstances,
                             places: seq<nat>, results: seq<ItemResult>)
    requires |c.clocks| == |c.faults| == |ops|
  {
    && |places| == |results| <= |ops|
    && (forall i, j | 0 <= i < j < |places| :: places[i] < places[j])
    && forall i | 0 <= i < |places| ::
      AnsweredOne(t, ds, places[i], Submission(who, ops[i], c.clocks[i], c.faults[i]), results[i])
  }

  ghost predicate AnsweredOne(t: Tables, ds: seq<Delivery>, place: nat, s: Submission, item: ItemResult) {
    && place < |ds| && Submits(ds[place], s)
    && item == ItemOf(Reply(Run(t, ds[..place]), ds[place]), s.op.opId)
    && (s.fault.Healthy? ==> (item.Outcome? <==> Process(Run(t, ds[..place]), s.who, s.op, s.clock).Done?))
  }

  lemma AnsweredStays(t: Tables, ds: seq<Delivery>, more: seq<Delivery>, place: nat, s: Submission, item: ItemResult)
    requires AnsweredOne(t, ds, place, s, item)
    ensures AnsweredOne(t, ds + more, place, s, item)
  {
    assert (ds + more)[..place] == ds[..place];
  }

  lemma AllAnsweredStay(t: Tables, ds: seq<Delivery>, more: seq<Delivery>, who: Identity, ops: seq<Operation>,
                        c: Circumstances,
                        places: seq<nat>, results: seq<ItemResult>)
    requires |c.clocks| == |c.faults| == |ops| && AnsweredAt(t, ds, who, ops, c, places, results)
    ensures AnsweredAt(t, ds + more, who, ops, c, places, results)
  {
    forall i | 0 <= i < |places|
      ensures AnsweredOne(t, ds + more, places[i], Submission(who, ops[i], c.clocks[i], c.faults[i]), results[i])
    {
      AnsweredStays(t, ds, more, places[i], Submission(who, ops[i], c.clocks[i], c.faults[i]), results[i]);
    }
  }

  /** One operation of the request, and its entry in the response. */
  method PushOne(db: Database, s: Submission) returns (item: ItemResult, ghost d: Delivery)
    requires db.Valid() && !db.inTransaction
    modifies db
    ensures db.Valid() && !db.inTransaction
    ensures Submits(d, s) && db.Tables() == Deliver(old(db.Tables()), d)
    ensures item == ItemOf(Reply(old(db.Tables()), d), s.op.opId)
    ensures s.fault.Healthy? ==> (item.Outcome? <==> Process(old(db.Tables()), s.who, s.op, s.clock).Done?)
  {
    ghost var before := db.Tables();
    var opId := s.op.opId;
    var r, e := Submit(db, s);
    d := e;
    OutcomeNamesOperation(before, d);
    if r.Err? {
      item := InternalError(opId);
    } else if r.value.opId != opId || r.value.opId == NIL_UUID {
      item := InternalError(opId);
    } else {
      item := Outcome(r.value);
    }
  }

  lemma AnsweredOneMore(t: Tables, ds: seq<Delivery>, d: Delivery, who: Identity, ops: seq<Operation>, c: Circumstances,
                        places: seq<nat>, results: seq<ItemResult>, item: ItemResult)
    requires |c.clocks| == |c.faults| == |ops| && AnsweredAt(t, ds, who, ops, c, places, results) && |places| < |ops|
    requires forall i | 0 <= i < |places| :: places[i] < |ds|
    requires AnsweredOne(t, ds + [d], |ds|, Submission(who, ops[|places|], c.clocks[|places|], c.faults[|places|]),
                         item)
    ensures AnsweredAt(t, ds + [d], who, ops, c, places + [|ds|], results + [item])
  {
    AllAnsweredStay(t, ds, [d], who, ops, c, places, results);
  }

  /** One result per operation, in request order: each is what its own
      transaction did, and a failed one does not stop those after it. Other
      requests may commit any operations in between. */
  method Push(db: Database, who: Identity, ops: seq<Operation>, c: Circumstances)
    returns (results: seq<ItemResult>, ghost ds: seq<Delivery>, ghost places: seq<nat>)
    requires db.Valid() && !db.inTransaction && Fitting(c, ops)
    modifies db
    ensures db.Valid() && !db.inTransaction
    ensures db.Tables() == Run(old(db.Tables()), ds)
    ensures |results| == |ops| && AnsweredAt(old(db.Tables()), ds, who, ops, c, places, results)
  {
    ghost var start := db.Tables();
    results, ds, places := [], [], [];
    for i := 0 to |ops|
      invariant db.Valid() && !db.inTransaction && db.Tables() == Run(start, ds)
      invariant |results| == i && AnsweredAt(start, ds, who, ops, c, places, results)
      invariant forall k | 0 <= k < |places| :: places[k] < |ds|
    {
      ghost var meanwhile := Elsewhere(db, c.others[i]);
      RunConcat(start, ds, meanwhile);
      AllAnsweredStay(start, ds, meanwhile, who, ops, c, places, results);
      ds := ds + meanwhile;
      var item, d := PushOne(db, Submission(who, ops[i], c.clocks[i], c.faults[i]));
      RunStep(start, ds, d);
      assert (ds + [d])[..|ds|] == ds;
      AnsweredOneMore(start, ds, d, who, ops, c, places, results, item);
      ds, places, results := ds + [d], places + [|ds|], results + [item];
    }
  }

  /** A request whose own fields are in order, and whose operations are sound. */
  predicate SoundRequest(r: SyncRequest, limits: Limits) {
    && r.deviceId != NIL_UUID && r.cursor >= 0 && r.maxChanges > 0 && r.maxChanges <= limits.maxChanges
    && r.clientTime != ZERO_TIME && |r.ops| <= limits.maxOperations
    && forall i | 0 <= i < |r.ops| :: E.Sound(r.ops[i])
  }

  lemma RequestExact(t: Tables, who: Identity, r: SyncRequest, limits: Limits)
    ensures ValidRequest(r, limits) <==> SoundRequest(r, limits)
  {
    forall i | 0 <= i < |r.ops| ensures ValidOperation(r.ops[i]) == E.Sound(r.ops[i]) {
      E.InvalidOperationExact(t, who, r.ops[i], 0);
    }
  }

  /** Such a request from a registered device of the account, by that device. */
  predicate Answerable(t: Tables, who: Identity, request: SyncRequest, limits: Limits) {
    && SoundRequest(request, limits) && limits.maxChanges < MAX_INT32 && request.deviceId == who.deviceId
    && who.userId != NIL_UUID && who.deviceId in t.devices && t.devices[who.deviceId] == who.userId
  }

  /** Each operation of the request that was acceptable when its turn came, and
      met a healthy connection, is answered as applied, under the next cursor. */
  ghost predicate AcceptedInTurn(t: Tables, ds: seq<Delivery>, who: Identity, ops: seq<Operation>, c: Circumstances,
                                 places: seq<nat>, results: seq<ItemResult>)
    requires |c.clocks| == |c.faults| == |ops| == |places| == |results|
  {
    forall i | 0 <= i < |ops| ::
      && places[i] < |ds|
      && var before := Run(t, ds[..places[i]]);
         c.faults[i].Healthy? && E.Acceptable(before, who, ops[i]) ==>
           && results[i].Outcome?
           && E.Accepted(before, Deliver(before, ds[places[i]]), who, ops[i], c.clocks[i], results[i].result)
  }

  lemma AcceptedOne(t: Tables, ds: seq<Delivery>, place: nat, s: Submission, item: ItemResult)
    requires Invariants.Valid(t) && AnsweredOne(t, ds, place, s, item) && s.fault.Healthy?
    requires E.Acceptable(Run(t, ds[..place]), s.who, s.op)
    ensures item.Outcome?
    ensures var before := Run(t, ds[..place]);
      E.Accepted(before, Deliver(before, ds[place]), s.who, s.op, s.clock, item.result)
  {
    RunValid(t, ds[..place]);
    E.AcceptableIsApplied(Run(t, ds[..place]), s.who, s.op, s.clock);
  }

  lemma AllAcceptedInTurn(t: Tables, ds: seq<Delivery>, who: Identity, ops: seq<Operation>, c: Circumstances,
                          places: seq<nat>, results: seq<ItemResult>)
    requires Invariants.Valid(t) && |c.clocks| == |c.faults| == |ops| == |results|
    requires AnsweredAt(t, ds, who, ops, c, places, results)
    ensures AcceptedInTurn(t, ds, who, ops, c, places, results)
  {
    forall i | 0 <= i < |ops| && c.faults[i].Healthy? && E.Acceptable(Run(t, ds[..places[i]]), who, ops[i])
      ensures results[i].Outcome?
      ensures var before := Run(t, ds[..places[i]]);
        E.Accepted(before, Deliver(before, ds[places[i]]), who, ops[i], c.clocks[i], results[i].result)
    {
      AcceptedOne(t, ds, places[i], Submission(who, ops[i], c.clocks[i], c.faults[i]), results[i]);
    }
    forall i | 0 <= i < |ops| ensures places[i] < |ds| {
      assert AnsweredOne(t, ds, places[i], Submission(who, ops[i], c.clocks[i], c.faults[i]), results[i]);
    }
  }

  /** The whole exchange. A request is refused as invalid exactly when it is
      not sound, and a refused request touches nothing itself; a failed pull
      leaves the pushed operations committed; with the device check and the
      pull on a healthy connection every sound request of a registered device
      is answered, whatever happens to its operations; and every acceptable
      movement in it is applied. */
  method Post(db: Database, who: Identity, request: SyncRequest, limits: Limits, c: Circumstances)
    returns (r: Result<SyncResponse, HandlerError>, ghost ds: seq<Delivery>, ghost places: seq<nat>,
             ghost results: seq<ItemResult>)
    requires db.Valid() && !db.inTransaction && Fitting(c, request.ops)
    modifies db
    ensures db.Valid() && !db.inTransaction && db.Tables() == Run(old(db.Tables()), ds)
    ensures r == Err(InvalidRequest) <==> !SoundRequest(request, limits)
    ensures SoundRequest(request, limits) && request.deviceId != who.deviceId ==> r == Err(RequestDeviceMismatch)
    ensures !SoundRequest(request, limits) || request.deviceId != who.deviceId ==> r.Err? && ds == []
    ensures !DeviceOwned(old(db.Tables()), who.userId, who.deviceId) ==> r.Err? && ds == []
    ensures ds != [] ==>
      |results| == |request.ops| && AnsweredAt(old(db.Tables()), ds, who, request.ops, c, places, results)
    ensures r.Ok? ==>
      && |results| == |request.ops| && request.maxChanges > 0
      && AnsweredAt(old(db.Tables()), ds, who, request.ops, c, places, results)
      && r.value == SyncResponse(results, PageOf(db.changeLog, who.userId, request.cursor, request.maxChanges), c.now)
    ensures Answerable(old(db.Tables()), who, request, limits) && c.device.Healthy? && c.feed.Healthy? ==> r.Ok?
    ensures r.Ok? && Invariants.Valid(old(db.Tables())) ==>
      |places| == |request.ops| && AcceptedInTurn(old(db.Tables()), ds, who, request.ops, c, places, results)
  {
    ghost var start := db.Tables();
    RequestExact(start, who, request, limits);
    ds, places, results := [], [], [];
    if !ValidRequest(request, limits) {
      return Err(InvalidRequest), [], [], [];
    }
    if request.deviceId != who.deviceId {
      return Err(RequestDeviceMismatch), [], [], [];
    }
    var refused := ValidateDevice(db, who.userId, request.deviceId, c.device, c.now);
    if refused.Some? {
      return Err(refused.value), [], [], [];
    }
    var items;
    items, ds, places := Push(db, who, request.ops, c);
    results := items;
    ghost var meanwhile := Elsewhere(db, c.others[|request.ops|]);
    RunConcat(start, ds, meanwhile);
    AllAnsweredStay(start, ds, meanwhile, who, request.ops, c, places, results);
    ds := ds + meanwhile;
    if Invariants.Valid(start) {
      AllAcceptedInTurn(start, ds, who, request.ops, c, places, results);
    }
    var feed := ListChanges(db, who.userId, request.cursor, request.maxChanges, c.feed, c.now);
    r := if feed.Err? then Err(feed.error) else Ok(SyncResponse(items, feed.value, c.now));
  }

  // ----- What the exchange guarantees -----

  lemma LogIsNumbered(t: Tables)
    requires LogNumbered(t)
    ensures Numbered(t.changeLog)
  {
    forall i | 0 <= i < |t.changeLog| ensures t.changeLog[i].cursor == i + 1 {
      assert EntrySound(t.changeLog[i], i + 1);
    }
  }

  /** In a valid state every response to a valid request passes the response
      validator, so a request whose page could be read is always answered. */
  lemma ResponseValid(t: Tables, who: Identity, request: SyncRequest, limits: Limits, c: Circumstances,
                      ds: seq<Delivery>, places: seq<nat>, results: seq<ItemResult>, serverTime: Timestamp)
    requires Invariants.Valid(t) && ValidRequest(request, limits) && serverTime != ZERO_TIME && Fitting(c, request.ops)
    requires |results| == |request.ops| && AnsweredAt(t, ds, who, request.ops, c, places, results)
    ensures
      var page := PageOf(Run(t, ds).changeLog, who.userId, request.cursor, request.maxChanges);
      ValidResponse(SyncResponse(results, page, serverTime), limits)
  {
    RunValid(t, ds);
    forall i | 0 <= i < |results|
      ensures results[i].OpId() != NIL_UUID && (results[i].Outcome? ==> ValidResult(results[i].result))
    {
      var s := Submission(who, request.ops[i], c.clocks[i], c.faults[i]);
      assert AnsweredOne(t, ds, places[i], s, results[i]) && ValidOperation(request.ops[i]);
      OutcomeNamesOperation(Run(t, ds[..places[i]]), ds[places[i]]);
    }
    LogIsNumbered(Run(t, ds));
    PagesAcceptable(Run(t, ds).changeLog, who.userId, request.cursor, request.maxChanges);
  }

  // ----- The client's pull loop -----

  /** Received entries stay everything up to the reached cursor while the log
      grows behind it. */
  lemma {:induction false} GrowthBehind(log: seq<ChangeLogEntry>, longer: seq<ChangeLogEntry>, userId: Uuid,
                                        cursor: int, reached: int,
                                        received: seq<ChangeLogEntry>)
    requires Numbered(longer) && log <= longer && cursor <= reached && (reached <= |log| || cursor == reached)
    requires UserLog(log, userId, cursor) == received + UserLog(log, userId, reached)
    ensures UserLog(longer, userId, cursor) == received + UserLog(longer, userId, reached)
  {
    if log != longer {
      var front, e := longer[..|longer| - 1], longer[|longer| - 1];
      GrowthBehind(log, front, userId, cursor, reached, received);
      assert Selected(e, userId, cursor) <==> Selected(e, userId, reached);
    }
  }

  lemma {:induction false} RunLogGrows(t: Tables, ds: seq<Delivery>)
    requires Invariants.Valid(t)
    ensures t.changeLog <= Run(t, ds).changeLog
  {
    if ds != [] {
      var front := ds[..|ds| - 1];
      RunLogGrows(t, front);
      RunValid(t, front);
      LogGrows(Run(t, front), ds[|ds| - 1]);
    }
  }

  /** What the client holds: everything up to the reached cursor. */
  ghost predicate Holds(log: seq<ChangeLogEntry>, userId: Uuid, cursor: int, reached: int,
                        received: seq<ChangeLogEntry>)
  {
    && cursor <= reached && (reached <= |log| || cursor == reached)
    && UserLog(log, userId, cursor) == received + UserLog(log, userId, reached)
  }

  lemma HoldsMeanwhile(t: Tables, ds: seq<Delivery>, userId: Uuid, cursor: int, reached: int,
                       received: seq<ChangeLogEntry>)
    requires Invariants.Valid(t) && Holds(t.changeLog, userId, cursor, reached, received)
    ensures Holds(Run(t, ds).changeLog, userId, cursor, reached, received) && Invariants.Valid(Run(t, ds))
  {
    RunValid(t, ds);
    RunLogGrows(t, ds);
    LogIsNumbered(Run(t, ds));
    GrowthBehind(t.changeLog, Run(t, ds).changeLog, userId, cursor, reached, received);
  }

  lemma HoldsOnePage(log: seq<ChangeLogEntry>, userId: Uuid, cursor: int, reached: int, received: seq<ChangeLogEntry>,
                     max: nat)
    requires Numbered(log) && max > 0 && Holds(log, userId, cursor, reached, received)
    ensures var page := PageOf(log, userId, reached, max);
      && Holds(log, userId, cursor, page.nextCursor, received + page.changes)
      && (page.hasMore ==> |UserLog(log, userId, page.nextCursor)| < |UserLog(log, userId, reached)|)
      && (!page.hasMore ==> received + page.changes == UserLog(log, userId, cursor))
  {
    PageSplits(log, userId, reached, max);
    var page := PageOf(log, userId, reached, max);
    assert received + (page.changes + UserLog(log, userId, page.nextCursor)) ==
      (received + page.changes) + UserLog(log, userId, page.nextCursor);
  }

  /** The client's pull loop, while other requests commit before each of its
      first requests and any of its requests may fail. If it finishes, it has
      received every entry of the account behind its cursor that was visible at
      its last request, once and in order. If a request fails, it holds a
      cursor from which nothing is missed and nothing comes twice. It ends,
      because once the others are done fewer entries remain after every page. */
  method PullAll(db: Database, userId: Uuid, cursor: int, max: int, now: Timestamp, others: seq<seq<Submission>>,
                 faults: seq<Fault>)
    returns (received: seq<ChangeLogEntry>, reached: int, ok: bool, ghost ds: seq<Delivery>)
    requires db.Valid() && !db.inTransaction && Invariants.Valid(db.Tables())
    requires userId != NIL_UUID && cursor >= 0 && 0 < max < MAX_INT32
    modifies db
    ensures db.Valid() && !db.inTransaction && db.Tables() == Run(old(db.Tables()), ds)
    ensures Holds(db.changeLog, userId, cursor, reached, received)
    ensures ok ==> received == UserLog(db.changeLog, userId, cursor)
    ensures (forall i | 0 <= i < |faults| :: faults[i].Healthy?) ==> ok
  {
    ghost var start := db.Tables();
    received, reached, ok, ds := [], cursor, true, [];
    var hasMore, i := true, 0;
    while hasMore
      invariant db.Valid() && !db.inTransaction && db.Tables() == Run(start, ds) && Invariants.Valid(db.Tables())
      invariant i >= 0 && Holds(db.changeLog, userId, cursor, reached, received)
      invariant !hasMore ==> received == UserLog(db.changeLog, userId, cursor)
      decreases if i < |others| then |others| - i else 0, hasMore, |UserLog(db.changeLog, userId, reached)|
    {
      if i < |others| {
        ghost var before := db.Tables();
        ghost var meanwhile := Elsewhere(db, others[i]);
        HoldsMeanwhile(before, meanwhile, userId, cursor, reached, received);
        RunConcat(start, ds, meanwhile);
        ds := ds + meanwhile;
      }
      LogIsNumbered(db.Tables());
      HoldsOnePage(db.changeLog, userId, cursor, reached, received, max);
      var page := ListChanges(db, userId, reached, max, if i < |faults| then faults[i] else Healthy, now);
      if page.Err? {
        return received, reached, false, ds;
      }
      received, reached, hasMore, i := received + page.value.changes, page.value.nextCursor, page.value.hasMore, i + 1;
    }
  }
}
