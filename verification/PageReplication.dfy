/** How the client applies one page of changes: all its products first, then
    its movements, each sorted by sequence, and the movements in passes that put
    off a reversal until the movement it reverses is there. On what the server
    sends this is the same as log order, however a page is shuffled. */
module PageReplication {
  import opened Prelude
  import opened Schema
  import opened ChangeFeed
  import opened Invariants
  import opened Runs
  import opened Replication
  import opened Concurrency
  import opened Snapshot

  // ----- The page applier -----

  function Products(es: seq<ChangeLogEntry>): seq<ChangeLogEntry> {
    if es == [] then []
    else Products(es[..|es| - 1]) + (if es[|es| - 1].payload.ProductPayload? then [es[|es| - 1]] else [])
  }

  function Movements(es: seq<ChangeLogEntry>): (ms: seq<ChangeLogEntry>)
    ensures forall i | 0 <= i < |ms| :: ms[i].payload.MovementPayload?
  {
    if es == [] then []
    else Movements(es[..|es| - 1]) + (if es[|es| - 1].payload.MovementPayload? then [es[|es| - 1]] else [])
  }

  predicate AllMovements(ms: seq<ChangeLogEntry>) {
    forall i | 0 <= i < |ms| :: ms[i].payload.MovementPayload?
  }

  /** A reversal whose original is not there yet has to wait. */
  predicate Waits(r: Replica, e: ChangeLogEntry) {
    e.payload.MovementPayload? && e.payload.movement.reversesId.Some?
      && e.payload.movement.reversesId.value !in r.movements
  }

  datatype Pass = Pass(replica: Replica, left: seq<ChangeLogEntry>)

  /** One pass over the remaining movements. */
  ghost function OnePass(r: Replica, ms: seq<ChangeLogEntry>): (result: Result<Pass, ApplyError>)
    ensures result.Ok? ==> |result.value.left| <= |ms|
  {
    if ms == [] then Ok(Pass(r, []))
    else
      match OnePass(r, ms[..|ms| - 1])
      case Err(error) => Err(error)
      case Ok(pass) =>
        var e := ms[|ms| - 1];
        if Waits(pass.replica, e) then Ok(Pass(pass.replica, pass.left + [e]))
        else
          match ApplyEntry(pass.replica, e)
          case Err(error) => Err(error)
          case Ok(next) => Ok(Pass(next, pass.left))
  }

  /** Passes, until nothing is left or a pass gets nowhere. */
  ghost function ApplyMovements(r: Replica, ms: seq<ChangeLogEntry>): Result<Replica, ApplyError>
    decreases |ms|
  {
    if ms == [] then Ok(r)
    else
      match OnePass(r, ms)
      case Err(error) => Err(error)
      case Ok(pass) => if |pass.left| == |ms| then Err(UnknownReversal) else ApplyMovements(pass.replica, pass.left)
  }

  /** Sequences are positive, and none occurs twice. */
  predicate SoundPage(page: seq<ChangeLogEntry>) {
    && (forall i | 0 <= i < |page| :: page[i].cursor > 0)
    && forall i, j | 0 <= i < j < |page| :: page[i].cursor != page[j].cursor
  }

  predicate Ascending(es: seq<ChangeLogEntry>) {
    forall i, j | 0 <= i < j < |es| :: es[i].cursor < es[j].cursor
  }

  function Insert(es: seq<ChangeLogEntry>, e: ChangeLogEntry): seq<ChangeLogEntry> {
    if es == [] || es[|es| - 1].cursor < e.cursor then es + [e]
    else Insert(es[..|es| - 1], e) + [es[|es| - 1]]
  }

  function BySequence(es: seq<ChangeLogEntry>): seq<ChangeLogEntry> {
    if es == [] then [] else Insert(BySequence(es[..|es| - 1]), es[|es| - 1])
  }

  ghost function ApplyPage(r: Replica, page: seq<ChangeLogEntry>): Result<Replica, ApplyError> {
    if !SoundPage(page) then Err(InvalidPage)
    else
      match ApplyAll(r, BySequence(Products(page)))
      case Err(error) => Err(error)
      case Ok(next) => ApplyMovements(next, BySequence(Movements(page)))
  }

  ghost function ApplyPages(r: Replica, pages: seq<seq<ChangeLogEntry>>): Result<Replica, ApplyError> {
    if pages == [] then Ok(r)
    else
      match ApplyPages(r, pages[..|pages| - 1])
      case Err(error) => Err(error)
      case Ok(next) => ApplyPage(next, pages[|pages| - 1])
  }

  function Joined(pages: seq<seq<ChangeLogEntry>>): seq<ChangeLogEntry> {
    if pages == [] then [] else Joined(pages[..|pages| - 1]) + pages[|pages| - 1]
  }

  // ----- Well-kept replicas -----

  /** Every product has a balance, and every movement a product. */
  ghost predicate WellKept(r: Replica) {
    r.balances.Keys == r.products.Keys && forall id | id in r.movements :: r.movements[id].productId in r.products
  }

  lemma ApplyEntryKeeps(r: Replica, e: ChangeLogEntry)
    requires WellKept(r) && ApplyEntry(r, e).Ok?
    ensures WellKept(ApplyEntry(r, e).value)
  {
  }

  lemma {:induction false} ApplyAllKeeps(r: Replica, es: seq<ChangeLogEntry>)
    requires WellKept(r) && ApplyAll(r, es).Ok?
    ensures WellKept(ApplyAll(r, es).value)
  {
    if es != [] {
      var front := es[..|es| - 1];
      ApplyAllKeeps(r, front);
      ApplyEntryKeeps(ApplyAll(r, front).value, es[|es| - 1]);
    }
  }

  lemma {:induction false} ApplyConcat(r: Replica, a: seq<ChangeLogEntry>, b: seq<ChangeLogEntry>)
    ensures ApplyAll(r, a + b) == if ApplyAll(r, a).Ok? then ApplyAll(ApplyAll(r, a).value, b) else ApplyAll(r, a)
  {
    if b == [] {
      assert a + b == a;
    } else {
      var front := b[..|b| - 1];
      ApplyConcat(r, a, front);
      assert (a + b)[..|a + b| - 1] == a + front;
    }
  }

  // ----- A product may go before a movement -----

  lemma NewProductIsEmpty(r: Replica, id: Uuid)
    requires WellKept(r) && id !in r.products
    ensures DeriveBalance(r.movements, id) == ReplicaBalance(0, None)
  {
    DerivedEmpty(r.movements, id);
  }

  lemma Swap(r: Replica, m: MovementView, p: ProductView)
    requires WellKept(r) && ApplyMovement(r, m).Ok? && ApplyProduct(ApplyMovement(r, m).value, p).Ok?
    ensures ApplyProduct(r, p).Ok?
    ensures ApplyMovement(ApplyProduct(r, p).value, m) == ApplyProduct(ApplyMovement(r, m).value, p)
  {
    var moved := ApplyMovement(r, m).value;
    if p.id !in r.products {
      NewProductIsEmpty(r, p.id);
      NewProductIsEmpty(moved, p.id);
    }
    assert BarcodeInUseBy(moved, p.id, p.fields.barcode) == BarcodeInUseBy(r, p.id, p.fields.barcode);
    if ApplyProduct(r, p) != Ok(r) {
      SwapPut(r, m, p);
    }
  }

  lemma SwapPut(r: Replica, m: MovementView, p: ProductView)
    requires WellKept(r) && ApplyMovement(r, m).Ok?
    ensures ApplyMovement(PutProduct(r, p), m) == Ok(PutProduct(ApplyMovement(r, m).value, p))
  {
    var moved := ApplyMovement(r, m).value;
    if p.id !in r.products {
      NewProductIsEmpty(r, p.id);
      NewProductIsEmpty(moved, p.id);
    }
    var one, other := ApplyMovement(PutProduct(r, p), m).value, PutProduct(moved, p);
    assert one.balances == other.balances;
  }

  lemma {:induction false} ProductFirst(r: Replica, ms: seq<ChangeLogEntry>, e: ChangeLogEntry)
    requires WellKept(r) && AllMovements(ms) && e.payload.ProductPayload? && ApplyAll(r, ms + [e]).Ok?
    ensures ApplyAll(r, [e] + ms) == ApplyAll(r, ms + [e])
  {
    assert (ms + [e])[..|ms|] == ms;
    if ms == [] {
      assert [e] + ms == ms + [e];
    } else {
      var front, m := ms[..|ms| - 1], ms[|ms| - 1];
      var before := ApplyAll(r, front).value;
      ApplyAllKeeps(r, front);
      Swap(before, m.payload.movement, e.payload.product);
      assert (front + [e])[..|front|] == front;
      ProductFirst(r, front, e);
      assert ([e] + ms)[..|ms|] == [e] + front;
    }
  }

  lemma MoveUp(r: Replica, ps: seq<ChangeLogEntry>, ms: seq<ChangeLogEntry>, e: ChangeLogEntry)
    requires WellKept(r) && AllMovements(ms) && e.payload.ProductPayload?
    requires ApplyAll(r, ps + ms).Ok? && ApplyEntry(ApplyAll(r, ps + ms).value, e).Ok?
    ensures ApplyAll(r, ps + ([e] + ms)) == ApplyEntry(ApplyAll(r, ps + ms).value, e)
  {
    ApplyConcat(r, ps, ms);
    ApplyConcat(r, ps, [e] + ms);
    var after := ApplyAll(r, ps).value;
    ApplyAllKeeps(r, ps);
    assert (ms + [e])[..|ms|] == ms;
    ProductFirst(after, ms, e);
  }

  /** Where one more entry goes in page order. */
  lemma OneMoreEntry(es: seq<ChangeLogEntry>, e: ChangeLogEntry)
    ensures Products(es + [e]) + Movements(es + [e]) ==
            if e.payload.ProductPayload? then Products(es) + ([e] + Movements(es))
            else (Products(es) + Movements(es)) + [e]
  {
    assert (es + [e])[..|es|] == es;
  }

  lemma OneMoreInOrder(r: Replica, front: seq<ChangeLogEntry>, e: ChangeLogEntry)
    requires WellKept(r) && ApplyAll(r, front).Ok? && ApplyEntry(ApplyAll(r, front).value, e).Ok?
    requires ApplyAll(r, Products(front) + Movements(front)) == ApplyAll(r, front)
    ensures ApplyAll(r, Products(front + [e]) + Movements(front + [e])) == ApplyEntry(ApplyAll(r, front).value, e)
  {
    OneMoreEntry(front, e);
    if e.payload.MovementPayload? {
      ApplyOneMore(r, Products(front) + Movements(front), e, ApplyAll(r, front).value);
    } else {
      MoveUp(r, Products(front), Movements(front), e);
    }
  }

  lemma {:induction false} ProductsFirst(r: Replica, es: seq<ChangeLogEntry>)
    requires WellKept(r) && ApplyAll(r, es).Ok?
    ensures ApplyAll(r, Products(es) + Movements(es)) == ApplyAll(r, es)
  {
    if es != [] {
      var front, e := es[..|es| - 1], es[|es| - 1];
      ProductsFirst(r, front);
      OneMoreInOrder(r, front, e);
      assert front + [e] == es;
    }
  }

  // ----- In log order nothing has to wait -----

  lemma {:induction false} FirstPassSuffices(r: Replica, ms: seq<ChangeLogEntry>)
    requires AllMovements(ms) && ApplyAll(r, ms).Ok?
    ensures OnePass(r, ms) == Ok(Pass(ApplyAll(r, ms).value, []))
  {
    if ms != [] {
      FirstPassSuffices(r, ms[..|ms| - 1]);
    }
  }

  lemma InOrderNothingWaits(r: Replica, ms: seq<ChangeLogEntry>)
    requires AllMovements(ms) && ApplyAll(r, ms).Ok?
    ensures ApplyMovements(r, ms) == ApplyAll(r, ms)
  {
    FirstPassSuffices(r, ms);
    if ms != [] {
      assert ApplyMovements(ApplyAll(r, ms).value, []) == ApplyAll(r, ms);
    }
  }

  // ----- A shuffled page -----

  lemma {:induction false} InsertSorts(es: seq<ChangeLogEntry>, e: ChangeLogEntry)
    requires Ascending(es) && forall i | 0 <= i < |es| :: es[i].cursor != e.cursor
    ensures Ascending(Insert(es, e)) && multiset(Insert(es, e)) == multiset(es) + multiset{e}
  {
    if es != [] && es[|es| - 1].cursor >= e.cursor {
      var front, last := es[..|es| - 1], es[|es| - 1];
      InsertSorts(front, e);
      assert es == front + [last];
      forall i | 0 <= i < |Insert(front, e)| ensures Insert(front, e)[i].cursor < last.cursor {
        assert Insert(front, e)[i] in multiset(Insert(front, e));
        assert Insert(front, e)[i] in front || Insert(front, e)[i] == e;
      }
    }
  }

  lemma {:induction false} SequenceSorts(es: seq<ChangeLogEntry>)
    requires forall i, j | 0 <= i < j < |es| :: es[i].cursor != es[j].cursor
    ensures Ascending(BySequence(es)) && multiset(BySequence(es)) == multiset(es)
  {
    if es != [] {
      var front, last := es[..|es| - 1], es[|es| - 1];
      SequenceSorts(front);
      assert es == front + [last];
      forall i | 0 <= i < |BySequence(front)| ensures BySequence(front)[i].cursor != last.cursor {
        assert BySequence(front)[i] in multiset(front);
        assert BySequence(front)[i] in front;
      }
      InsertSorts(BySequence(front), last);
    }
  }

  lemma SameLast(a: seq<ChangeLogEntry>, b: seq<ChangeLogEntry>)
    requires Ascending(a) && Ascending(b) && a != [] && b != [] && a[|a| - 1] in b && b[|b| - 1] in a
    ensures a[|a| - 1] == b[|b| - 1]
  {
    var k :| 0 <= k < |b| && b[k] == a[|a| - 1];
    var l :| 0 <= l < |a| && a[l] == b[|b| - 1];
  }

  lemma WithoutLast(a: seq<ChangeLogEntry>)
    requires a != []
    ensures multiset(a[..|a| - 1]) == multiset(a) - multiset{a[|a| - 1]}
    ensures a == a[..|a| - 1] + [a[|a| - 1]]
  {
    assert a == a[..|a| - 1] + [a[|a| - 1]];
  }

  lemma SameMembers(a: seq<ChangeLogEntry>, b: seq<ChangeLogEntry>)
    requires multiset(a) == multiset(b)
    ensures |a| == |b| && forall e | e in a :: e in b
  {
    assert |a| == |multiset(a)| && |b| == |multiset(b)|;
    forall e | e in a ensures e in b {
      assert e in multiset(b);
    }
  }

  /** There is only one way to sort. */
  lemma {:induction false} OneSorting(a: seq<ChangeLogEntry>, b: seq<ChangeLogEntry>)
    requires Ascending(a) && Ascending(b) && multiset(a) == multiset(b)
    ensures a == b
    decreases |a|
  {
    SameMembers(a, b);
    SameMembers(b, a);
    if a != [] {
      SameLast(a, b);
      WithoutLast(a);
      WithoutLast(b);
      var front, other := a[..|a| - 1], b[..|b| - 1];
      assert multiset(front) == multiset(other);
      OneSorting(front, other);
    }
  }

  /** The entries of one kind, as often as they come. */
  lemma {:induction false} KindCounts(es: seq<ChangeLogEntry>, e: ChangeLogEntry)
    ensures multiset(Products(es))[e] == if e.payload.ProductPayload? then multiset(es)[e] else 0
    ensures multiset(Movements(es))[e] == if e.payload.MovementPayload? then multiset(es)[e] else 0
  {
    if es != [] {
      KindCounts(es[..|es| - 1], e);
      WithoutLast(es);
    }
  }

  lemma SameKinds(a: seq<ChangeLogEntry>, b: seq<ChangeLogEntry>)
    requires multiset(a) == multiset(b)
    ensures multiset(Products(a)) == multiset(Products(b)) && multiset(Movements(a)) == multiset(Movements(b))
  {
    forall e: ChangeLogEntry
      ensures multiset(Products(a))[e] == multiset(Products(b))[e]
      ensures multiset(Movements(a))[e] == multiset(Movements(b))[e]
    {
      KindCounts(a, e);
      KindCounts(b, e);
    }
  }

  lemma AscendsFurther(es: seq<ChangeLogEntry>, rest: seq<ChangeLogEntry>, last: ChangeLogEntry)
    requires Ascending(es + [last]) && Ascending(rest) && forall e | e in rest :: e in es
    ensures Ascending(rest + [last])
  {
    forall i | 0 <= i < |rest| ensures rest[i].cursor < last.cursor {
      assert rest[i] in es;
      var k :| 0 <= k < |es| && es[k] == rest[i];
      assert (es + [last])[k] == es[k] && (es + [last])[|es|] == last;
    }
  }

  /** And in the order in which they come. */
  lemma {:induction false} KindsAscend(es: seq<ChangeLogEntry>)
    requires Ascending(es)
    ensures Ascending(Products(es)) && Ascending(Movements(es))
    ensures forall e | e in Products(es) || e in Movements(es) :: e in es
  {
    if es != [] {
      var front, last := es[..|es| - 1], es[|es| - 1];
      WithoutLast(es);
      KindsAscend(front);
      AscendsFurther(front, Products(front), last);
      AscendsFurther(front, Movements(front), last);
    }
  }

  lemma DistinctInAnyOrder(es: seq<ChangeLogEntry>, slice: seq<ChangeLogEntry>)
    requires Ascending(slice) && multiset(es) == multiset(slice)
    ensures forall i, j | 0 <= i < j < |es| :: es[i].cursor != es[j].cursor
  {
    forall i, j | 0 <= i < j < |es| ensures es[i].cursor != es[j].cursor {
      if es[i].cursor == es[j].cursor {
        assert es[i] in multiset(slice) && es[j] in multiset(slice);
        assert es[i] in slice && es[j] in slice;
        assert es[i] == es[j];
        TwiceInside(es, i, j);
        OnceAscending(slice, es[i]);
      }
    }
  }

  lemma TwiceInside(es: seq<ChangeLogEntry>, i: nat, j: nat)
    requires i < j < |es| && es[i] == es[j]
    ensures multiset(es)[es[i]] >= 2
  {
    assert es == es[..i] + [es[i]] + es[i + 1..j] + [es[j]] + es[j + 1..];
  }

  lemma {:induction false} OnceAscending(es: seq<ChangeLogEntry>, e: ChangeLogEntry)
    requires Ascending(es)
    ensures multiset(es)[e] <= 1
  {
    if es != [] {
      var front, last := es[..|es| - 1], es[|es| - 1];
      OnceAscending(front, e);
      assert es == front + [last];
      if last == e && e in front {
        assert false;
      }
    }
  }

  /** Sorting a shuffled part of the log gives the log order back. */
  lemma SortedIsLogOrder(es: seq<ChangeLogEntry>, slice: seq<ChangeLogEntry>)
    requires Ascending(slice) && multiset(es) == multiset(slice)
    ensures BySequence(es) == slice
  {
    DistinctInAnyOrder(es, slice);
    SequenceSorts(es);
    OneSorting(BySequence(es), slice);
  }

  lemma ShuffledKinds(page: seq<ChangeLogEntry>, slice: seq<ChangeLogEntry>)
    requires Ascending(slice) && multiset(page) == multiset(slice)
    ensures BySequence(Products(page)) == Products(slice) && BySequence(Movements(page)) == Movements(slice)
  {
    SameKinds(page, slice);
    KindsAscend(slice);
    SortedIsLogOrder(Products(page), Products(slice));
    SortedIsLogOrder(Movements(page), Movements(slice));
  }

  lemma ShuffledSound(page: seq<ChangeLogEntry>, slice: seq<ChangeLogEntry>)
    requires Ascending(slice) && multiset(page) == multiset(slice)
    requires forall e | e in slice :: e.cursor > 0
    ensures SoundPage(page)
  {
    DistinctInAnyOrder(page, slice);
    forall i | 0 <= i < |page| ensures page[i].cursor > 0 {
      assert page[i] in multiset(slice);
      assert page[i] in slice;
    }
  }

  /** The entries of one stretch of the log, in any order. */
  ghost predicate Shuffles(page: seq<ChangeLogEntry>, slice: seq<ChangeLogEntry>) {
    Ascending(slice) && (forall e | e in slice :: e.cursor > 0) && multiset(page) == multiset(slice)
  }

  /** Entries that can be applied in log order are applied with the same result
      as a page, in whatever order the page lists them. */
  lemma PageInLogOrder(r: Replica, page: seq<ChangeLogEntry>, slice: seq<ChangeLogEntry>)
    requires WellKept(r) && ApplyAll(r, slice).Ok? && Shuffles(page, slice)
    ensures ApplyPage(r, page) == ApplyAll(r, slice)
  {
    ShuffledSound(page, slice);
    ShuffledKinds(page, slice);
    var ps, ms := Products(slice), Movements(slice);
    ProductsFirst(r, slice);
    ApplyConcat(r, ps, ms);
    InOrderNothingWaits(ApplyAll(r, ps).value, ms);
  }

  ghost predicate AllShuffle(pages: seq<seq<ChangeLogEntry>>, slices: seq<seq<ChangeLogEntry>>) {
    |pages| == |slices| && forall i | 0 <= i < |pages| :: Shuffles(pages[i], slices[i])
  }

  lemma {:induction false} PagesInLogOrder(r: Replica, pages: seq<seq<ChangeLogEntry>>,
                                           slices: seq<seq<ChangeLogEntry>>)
    requires WellKept(r) && ApplyAll(r, Joined(slices)).Ok? && AllShuffle(pages, slices)
    ensures ApplyPages(r, pages) == ApplyAll(r, Joined(slices))
  {
    if pages != [] {
      var n := |pages| - 1;
      var front := slices[..n];
      ApplyConcat(r, Joined(front), slices[n]);
      PagesInLogOrder(r, pages[..n], front);
      ApplyAllKeeps(r, Joined(front));
      PageInLogOrder(ApplyAll(r, Joined(front)).value, pages[n], slices[n]);
    }
  }

  // ----- Convergence, page by page -----

  lemma ViewWellKept(t: Tables, userId: Uuid)
    requires LedgerSound(t)
    ensures WellKept(View(t, userId))
  {
    var view := View(t, userId);
    assert view.balances.Keys == view.products.Keys;
    forall id | id in view.movements ensures view.movements[id].productId in view.products {
      RowsOnly(t.movements, userId, id);
      var i :| 0 <= i < |t.movements| && t.movements[i].id == id && t.movements[i].userId == userId &&
               view.movements[id] == ViewMovement(t.movements[i]);
      assert RowSound(t, i);
    }
  }

  /** The entries of the log behind a cursor ascend from it. */
  lemma LogAscends(log: seq<ChangeLogEntry>, userId: Uuid, after: nat)
    requires Numbered(log)
    ensures Ascending(UserLog(log, userId, after))
    ensures forall e | e in UserLog(log, userId, after) :: e.cursor > 0
  {
    var all := UserLog(log, userId, after);
    forall k | 0 <= k < |all|
      ensures all[k].cursor > after && forall j | 0 <= j < k :: all[j].cursor < all[k].cursor
    {
      CutAt(log, userId, after, k);
    }
  }

  /** The pages hold the entries behind the cursor, cut anywhere, and each page
      lists its own in any order. */
  ghost predicate PagesOf(pages: seq<seq<ChangeLogEntry>>, entries: seq<ChangeLogEntry>) {
    exists slices :: Joined(slices) == entries && |slices| == |pages| &&
                     forall i | 0 <= i < |pages| :: multiset(pages[i]) == multiset(slices[i])
  }

  lemma AscendInParts(a: seq<ChangeLogEntry>, b: seq<ChangeLogEntry>)
    requires Ascending(a + b) && forall e | e in a + b :: e.cursor > 0
    ensures Ascending(a) && (forall e | e in a :: e.cursor > 0)
    ensures Ascending(b) && (forall e | e in b :: e.cursor > 0)
  {
    forall i, j | 0 <= i < j < |a| ensures a[i].cursor < a[j].cursor {
      assert (a + b)[i] == a[i] && (a + b)[j] == a[j];
    }
    forall i, j | 0 <= i < j < |b| ensures b[i].cursor < b[j].cursor {
      assert (a + b)[|a| + i] == b[i] && (a + b)[|a| + j] == b[j];
    }
  }

  lemma {:induction false} SlicesAscend(slices: seq<seq<ChangeLogEntry>>, i: nat)
    requires i < |slices| && Ascending(Joined(slices)) && forall e | e in Joined(slices) :: e.cursor > 0
    ensures Ascending(slices[i]) && forall e | e in slices[i] :: e.cursor > 0
  {
    var n := |slices| - 1;
    AscendInParts(Joined(slices[..n]), slices[n]);
    if i < n {
      SlicesAscend(slices[..n], i);
    }
  }

  lemma PagesApply(r: Replica, log: seq<ChangeLogEntry>, userId: Uuid, after: nat, pages: seq<seq<ChangeLogEntry>>)
    requires Numbered(log) && WellKept(r) && PagesOf(pages, UserLog(log, userId, after))
    requires ApplyAll(r, UserLog(log, userId, after)).Ok?
    ensures ApplyPages(r, pages) == ApplyAll(r, UserLog(log, userId, after))
  {
    var slices :| Joined(slices) == UserLog(log, userId, after) && |slices| == |pages| &&
                  forall i | 0 <= i < |pages| :: multiset(pages[i]) == multiset(slices[i]);
    LogAscends(log, userId, after);
    forall i | 0 <= i < |pages| ensures Shuffles(pages[i], slices[i]) {
      SlicesAscend(slices, i);
    }
    PagesInLogOrder(r, pages, slices);
  }

  lemma NumberedLog(t: Tables)
    requires LogNumbered(t)
    ensures Numbered(t.changeLog)
  {
    forall i | 0 <= i < |t.changeLog| ensures t.changeLog[i].cursor == i + 1 {
      assert EntrySound(t.changeLog[i], i + 1);
    }
  }

  /** However the account's entries are cut into pages, and however each page is
      shuffled: a replica that holds the account as of any valid state and
      applies them page by page, as the client does, refuses nothing and ends
      up holding the account as it is. */
  lemma PagesConverge(r: Replica, t: Tables, ds: seq<Delivery>, userId: Uuid, cursor: nat,
                      pages: seq<seq<ChangeLogEntry>>)
    requires Valid(t) && HoldsAccount(r, t, userId) && cursor <= t.lastSeq
    requires PagesOf(pages, UserLog(Run(t, ds).changeLog, userId, cursor))
    ensures var applied := ApplyPages(r, pages);
      applied.Ok? && HoldsAccount(applied.value, Run(t, ds), userId)
  {
    HoldsOnlyView(r, t, userId);
    ReplicaConverges(r, t, ds, userId, cursor);
    ViewWellKept(t, userId);
    RunValid(t, ds);
    NumberedLog(Run(t, ds));
    PagesApply(r, Run(t, ds).changeLog, userId, cursor, pages);
  }

  /** The same from a snapshot installed at one instant of any interleaving of
      writers to any later instant. */
  lemma BootstrapConvergesByPages(t: Tables, es: seq<Event>, m: nat, n: nat, userId: Uuid, s: AccountSnapshot,
                                  pages: seq<seq<ChangeLogEntry>>)
    requires Valid(t) && m <= n <= |es|
    requires SnapshotOf(Execute(Initial(t), es[..m]).committed, userId, s)
    requires PagesOf(pages, UserLog(LogAt(t, es, n), userId, s.cursor))
    ensures var applied := ApplyPages(Installed(s), pages);
      applied.Ok? && HoldsAccount(applied.value, Execute(Initial(t), es[..n]).committed, userId)
  {
    BootstrapConverges(t, es, m, n, userId, s);
    Serializable(t, es[..m]);
    Serializable(t, es[..n]);
    InstalledIsView(Execute(Initial(t), es[..m]).committed, userId, s);
    ViewWellKept(Execute(Initial(t), es[..m]).committed, userId);
    NumberedLog(Execute(Initial(t), es[..n]).committed);
    PagesApply(Installed(s), LogAt(t, es, n), userId, s.cursor, pages);
  }
}
