/** Verification and repair of the balance projection: the comparison of two
    lists of balances, what its report means, when it can be wrong, and the
    rebuild that makes any projection right again. */
module Projection {
  import opened Prelude
  import opened Schema
  import opened Ledger
  import opened Store

  datatype MismatchKind = MissingProjection | QuantityMismatch | LastMovementMismatch | UnexpectedProjection

  datatype Mismatch = Mismatch(
    productId: Uuid, kind: MismatchKind, expectedQty: int, actualQty: Option<int>,
    expectedLastAt: Option<Timestamp>, actualLastAt: Option<Timestamp>)

  datatype Verification = Verification(userId: Uuid, checkedProducts: nat, mismatches: seq<Mismatch>, consistent: bool)

  datatype VerifyError = InvalidInput | Unavailable

  // ----- What the report should say -----

  predicate DistinctCanonical(rows: seq<LedgerBalance>) {
    forall i, j | 0 <= i < j < |rows| :: rows[i].productId != rows[j].productId
  }

  predicate DistinctProjected(rows: seq<ProjectedBalance>) {
    forall i, j | 0 <= i < j < |rows| :: rows[i].productId != rows[j].productId
  }

  /** The report is complete and precise: a product is listed, with its kind
      and values, exactly when its two balances differ. */
  ghost predicate Reports(canonical: seq<LedgerBalance>, projected: seq<ProjectedBalance>, m: Mismatch) {
    || (m.kind.MissingProjection?
        && LedgerBalance(m.productId, m.expectedQty, m.expectedLastAt) in canonical
        && (forall p | p in projected :: p.productId != m.productId)
        && m.actualQty.None? && m.actualLastAt.None?)
    || (m.kind.UnexpectedProjection?
        && m.actualQty.Some? && ProjectedBalance(m.productId, m.actualQty.value, m.actualLastAt) in projected
        && (forall c | c in canonical :: c.productId != m.productId)
        && m.expectedQty == 0 && m.expectedLastAt.None?)
    || (m.actualQty.Some?
        && LedgerBalance(m.productId, m.expectedQty, m.expectedLastAt) in canonical
        && ProjectedBalance(m.productId, m.actualQty.value, m.actualLastAt) in projected
        && (m.kind.QuantityMismatch? ==> m.expectedQty != m.actualQty.value)
        && (m.kind.LastMovementMismatch? ==> m.expectedQty == m.actualQty.value && m.expectedLastAt != m.actualLastAt)
        && (m.kind.QuantityMismatch? || m.kind.LastMovementMismatch?))
  }

  /** The two lists agree on products, quantities and times. */
  predicate Agree(canonical: seq<LedgerBalance>, projected: seq<ProjectedBalance>) {
    && (forall c | c in canonical :: ProjectedBalance(c.productId, c.qty, c.lastMovementAt) in projected)
    && (forall p | p in projected :: LedgerBalance(p.productId, p.qty, p.lastMovementAt) in canonical)
  }

  predicate Sorted(ms: seq<Mismatch>) {
    forall i, j | 0 <= i < j < |ms| :: ms[i].productId < ms[j].productId
  }

  predicate DistinctProducts(ms: seq<Mismatch>) {
    forall i, j | 0 <= i < j < |ms| :: ms[i].productId != ms[j].productId
  }

  lemma InsertKeepsSorted(ms: seq<Mismatch>, k: nat, m: Mismatch)
    requires Sorted(ms) && k <= |ms|
    requires forall i | 0 <= i < |ms| :: if i < k then ms[i].productId < m.productId else m.productId < ms[i].productId
    ensures Sorted(ms[..k] + [m] + ms[k..])
  {
  }

  method InsertByProduct(ms: seq<Mismatch>, m: Mismatch) returns (sorted: seq<Mismatch>)
    requires Sorted(ms) && forall n | n in ms :: n.productId != m.productId
    ensures Sorted(sorted) && |sorted| == |ms| + 1 && forall n :: n in sorted <==> n in ms || n == m
  {
    var k := 0;
    while k < |ms| && ms[k].productId < m.productId
      invariant k <= |ms| && forall i | 0 <= i < k :: ms[i].productId < m.productId
    {
      k := k + 1;
    }
    assert forall i | 0 <= i < |ms| :: ms[i] in ms;
    InsertKeepsSorted(ms, k, m);
    sorted := ms[..k] + [m] + ms[k..];
    assert ms == ms[..k] + ms[k..];
  }

  method SortByProduct(ms: seq<Mismatch>) returns (sorted: seq<Mismatch>)
    requires DistinctProducts(ms)
    ensures Sorted(sorted) && |sorted| == |ms| && forall m :: m in sorted <==> m in ms
  {
    sorted := [];
    for i := 0 to |ms|
      invariant Sorted(sorted) && |sorted| == i && forall m :: m in sorted <==> m in ms[..i]
    {
      assert ms[..i + 1] == ms[..i] + [ms[i]];
      sorted := InsertByProduct(sorted, ms[i]);
    }
    assert ms[..|ms|] == ms;
  }

  // ----- The comparison -----

  /** Whether an expected balance and the stored one differ, and how. */
  function Compare(c: LedgerBalance, p: Option<ProjectedBalance>): Option<Mismatch> {
    if p.None? then Some(Mismatch(c.productId, MissingProjection, c.qty, None, c.lastMovementAt, None))
    else if p.value.qty != c.qty then
      Some(Mismatch(c.productId, QuantityMismatch, c.qty, Some(p.value.qty), c.lastMovementAt, p.value.lastMovementAt))
    else if p.value.lastMovementAt != c.lastMovementAt then
      Some(Mismatch(c.productId, LastMovementMismatch, c.qty, Some(p.value.qty), c.lastMovementAt,
                    p.value.lastMovementAt))
    else None
  }

  /** A list indexed by product. */
  ghost predicate IndexedBy<T>(index: map<Uuid, T>, rows: seq<T>, id: T -> Uuid) {
    && (forall k | k in index :: index[k] in rows && id(index[k]) == k)
    && (forall r | r in rows :: id(r) in index)
  }

  method IndexCanonical(rows: seq<LedgerBalance>) returns (index: map<Uuid, LedgerBalance>)
    ensures IndexedBy(index, rows, (r: LedgerBalance) => r.productId)
  {
    index := map[];
    for i := 0 to |rows|
      invariant IndexedBy(index, rows[..i], (r: LedgerBalance) => r.productId)
    {
      assert rows[..i + 1] == rows[..i] + [rows[i]];
      index := index[rows[i].productId := rows[i]];
    }
    assert rows[..|rows|] == rows;
  }

  method IndexProjected(rows: seq<ProjectedBalance>) returns (index: map<Uuid, ProjectedBalance>)
    ensures IndexedBy(index, rows, (r: ProjectedBalance) => r.productId)
  {
    index := map[];
    for i := 0 to |rows|
      invariant IndexedBy(index, rows[..i], (r: ProjectedBalance) => r.productId)
    {
      assert rows[..i + 1] == rows[..i] + [rows[i]];
      index := index[rows[i].productId := rows[i]];
    }
    assert rows[..|rows|] == rows;
  }

  ghost predicate Listed(ms: seq<Mismatch>, id: Uuid) {
    exists m | m in ms :: m.productId == id
  }

  /** What has been found in the first rows of the expected balances. */
  ghost predicate ExpectedSoFar(canonical: seq<LedgerBalance>, projected: seq<ProjectedBalance>, n: nat,
                                ms: seq<Mismatch>)
    requires n <= |canonical|
  {
    && DistinctProducts(ms)
    && (forall m | m in ms :: Reports(canonical, projected, m) && !m.kind.UnexpectedProjection? &&
          exists j | 0 <= j < n :: canonical[j].productId == m.productId)
    && (forall j | 0 <= j < n :: Listed(ms, canonical[j].productId) ||
          ProjectedBalance(canonical[j].productId, canonical[j].qty, canonical[j].lastMovementAt) in projected)
  }

  lemma FoundOneMore(canonical: seq<LedgerBalance>, projected: seq<ProjectedBalance>, n: nat, ms: seq<Mismatch>,
                     m: Mismatch)
    requires n < |canonical| && DistinctCanonical(canonical) && ExpectedSoFar(canonical, projected, n, ms)
    requires Reports(canonical, projected, m) && !m.kind.UnexpectedProjection? && m.productId == canonical[n].productId
    ensures ExpectedSoFar(canonical, projected, n + 1, ms + [m])
  {
    var after := ms + [m];
    assert forall k | 0 <= k < |ms| :: ms[k] in ms;
    forall j | 0 <= j < n + 1
      ensures Listed(after, canonical[j].productId) ||
        ProjectedBalance(canonical[j].productId, canonical[j].qty, canonical[j].lastMovementAt) in projected
    {
      if j == n {
        assert m in after;
      } else if Listed(ms, canonical[j].productId) {
        var found :| found in ms && found.productId == canonical[j].productId;
        assert found in after;
      }
    }
  }

  /** Expected balances that are missing or different. */
  method CompareExpected(canonical: seq<LedgerBalance>, projected: seq<ProjectedBalance>,
                         projectedById: map<Uuid, ProjectedBalance>)
    returns (ms: seq<Mismatch>)
    requires DistinctCanonical(canonical) && IndexedBy(projectedById, projected, (r: ProjectedBalance) => r.productId)
    ensures DistinctProducts(ms)
    ensures forall m | m in ms :: Reports(canonical, projected, m) && !m.kind.UnexpectedProjection?
    ensures forall c | c in canonical ::
      Listed(ms, c.productId) || ProjectedBalance(c.productId, c.qty, c.lastMovementAt) in projected
  {
    ms := [];
    for i := 0 to |canonical|
      invariant ExpectedSoFar(canonical, projected, i, ms)
    {
      var c := canonical[i];
      var p := if c.productId in projectedById then Some(projectedById[c.productId]) else None;
      var difference := Compare(c, p);
      if difference.Some? {
        assert c in canonical && Reports(canonical, projected, difference.value);
        FoundOneMore(canonical, projected, i, ms, difference.value);
        ms := ms + [difference.value];
      } else {
        assert p.value == ProjectedBalance(c.productId, c.qty, c.lastMovementAt);
      }
    }
  }

  ghost predicate Expected(canonical: seq<LedgerBalance>, id: Uuid) {
    exists c | c in canonical :: c.productId == id
  }

  /** What has been found in the first rows of the stored balances. */
  ghost predicate UnexpectedSoFar(canonical: seq<LedgerBalance>, projected: seq<ProjectedBalance>, n: nat,
                                  ms: seq<Mismatch>)
    requires n <= |projected|
  {
    && DistinctProducts(ms)
    && (forall m | m in ms :: Reports(canonical, projected, m) && m.kind.UnexpectedProjection? &&
          exists j | 0 <= j < n :: projected[j].productId == m.productId)
    && (forall j | 0 <= j < n :: Listed(ms, projected[j].productId) || Expected(canonical, projected[j].productId))
  }

  lemma UnexpectedOneMore(canonical: seq<LedgerBalance>, projected: seq<ProjectedBalance>, n: nat, ms: seq<Mismatch>,
                          m: Mismatch)
    requires n < |projected| && DistinctProjected(projected) && UnexpectedSoFar(canonical, projected, n, ms)
    requires Reports(canonical, projected, m) && m.kind.UnexpectedProjection? && m.productId == projected[n].productId
    ensures UnexpectedSoFar(canonical, projected, n + 1, ms + [m])
  {
    var after := ms + [m];
    assert forall k | 0 <= k < |ms| :: ms[k] in ms;
    forall j | 0 <= j < n + 1
      ensures Listed(after, projected[j].productId) || Expected(canonical, projected[j].productId)
    {
      if j == n {
        assert m in after;
      } else if Listed(ms, projected[j].productId) {
        var found :| found in ms && found.productId == projected[j].productId;
        assert found in after;
      }
    }
  }

  /** Stored balances of products that have no expected one. */
  method CompareUnexpected(canonical: seq<LedgerBalance>, canonicalById: map<Uuid, LedgerBalance>,
                           projected: seq<ProjectedBalance>)
    returns (ms: seq<Mismatch>)
    requires DistinctProjected(projected) && IndexedBy(canonicalById, canonical, (r: LedgerBalance) => r.productId)
    ensures DistinctProducts(ms)
    ensures forall m | m in ms :: Reports(canonical, projected, m) && m.kind.UnexpectedProjection?
    ensures forall p | p in projected :: Listed(ms, p.productId) || Expected(canonical, p.productId)
  {
    ms := [];
    for i := 0 to |projected|
      invariant UnexpectedSoFar(canonical, projected, i, ms)
    {
      var p := projected[i];
      if p.productId !in canonicalById {
        var m := Mismatch(p.productId, UnexpectedProjection, 0, Some(p.qty), None, p.lastMovementAt);
        assert p in projected && Reports(canonical, projected, m);
        UnexpectedOneMore(canonical, projected, i, ms, m);
        ms := ms + [m];
      } else {
        assert canonicalById[p.productId] in canonical;
      }
    }
  }

  /** The report lists each product that differs, once, in id order, with the
      right kind and values; and it is consistent if and only if the ledger's
      balances and the stored ones agree. */
  method CompareBalances(userId: Uuid, canonical: seq<LedgerBalance>, projected: seq<ProjectedBalance>)
    returns (v: Verification)
    requires DistinctCanonical(canonical) && DistinctProjected(projected)
    ensures v.userId == userId && v.checkedProducts == |canonical|
    ensures Sorted(v.mismatches) && forall m :: m in v.mismatches <==> Reports(canonical, projected, m)
    ensures v.consistent <==> Agree(canonical, projected)
    ensures v.consistent <==> v.mismatches == []
  {
    var canonicalById := IndexCanonical(canonical);
    var projectedById := IndexProjected(projected);
    var expected := CompareExpected(canonical, projected, projectedById);
    var unexpected := CompareUnexpected(canonical, canonicalById, projected);
    var all := expected + unexpected;
    AllDistinct(canonical, projected, expected, unexpected);
    AllReported(canonical, projected, expected, unexpected);
    var mismatches := SortByProduct(all);
    v := Verification(userId, |canonical|, mismatches, |mismatches| == 0);
    ConsistentMeansAgree(canonical, projected, mismatches);
  }

  lemma AllDistinct(canonical: seq<LedgerBalance>, projected: seq<ProjectedBalance>, expected: seq<Mismatch>,
                    unexpected: seq<Mismatch>)
    requires DistinctProducts(expected)
    requires forall m | m in expected :: Reports(canonical, projected, m) && !m.kind.UnexpectedProjection?
    requires DistinctProducts(unexpected)
    requires forall m | m in unexpected :: Reports(canonical, projected, m) && m.kind.UnexpectedProjection?
    ensures DistinctProducts(expected + unexpected)
  {
    var all := expected + unexpected;
    forall i, j | 0 <= i < j < |all| ensures all[i].productId != all[j].productId {
      if i < |expected| <= j {
        assert all[i] in expected && all[j] in unexpected;
      }
    }
  }

  lemma OneRow(canonical: seq<LedgerBalance>, a: LedgerBalance, b: LedgerBalance)
    requires DistinctCanonical(canonical) && a in canonical && b in canonical && a.productId == b.productId
    ensures a == b
  {
  }

  lemma OneStored(projected: seq<ProjectedBalance>, a: ProjectedBalance, b: ProjectedBalance)
    requires DistinctProjected(projected) && a in projected && b in projected && a.productId == b.productId
    ensures a == b
  {
  }

  /** For one product there is at most one right thing to report. */
  lemma ReportUnique(canonical: seq<LedgerBalance>, projected: seq<ProjectedBalance>, a: Mismatch, b: Mismatch)
    requires DistinctCanonical(canonical) && DistinctProjected(projected)
    requires Reports(canonical, projected, a) && Reports(canonical, projected, b) && a.productId == b.productId
    ensures a == b
  {
    if !a.kind.UnexpectedProjection? && !b.kind.UnexpectedProjection? {
      OneRow(canonical, LedgerBalance(a.productId, a.expectedQty, a.expectedLastAt),
             LedgerBalance(b.productId, b.expectedQty, b.expectedLastAt));
    }
    if !a.kind.MissingProjection? && !b.kind.MissingProjection? {
      OneStored(projected, ProjectedBalance(a.productId, a.actualQty.value, a.actualLastAt),
                ProjectedBalance(b.productId, b.actualQty.value, b.actualLastAt));
    }
  }

  lemma AllReported(canonical: seq<LedgerBalance>, projected: seq<ProjectedBalance>, expected: seq<Mismatch>,
                    unexpected: seq<Mismatch>)
    requires DistinctCanonical(canonical) && DistinctProjected(projected)
    requires forall m | m in expected :: Reports(canonical, projected, m)
    requires forall m | m in unexpected :: Reports(canonical, projected, m)
    requires forall c | c in canonical ::
      Listed(expected, c.productId) || ProjectedBalance(c.productId, c.qty, c.lastMovementAt) in projected
    requires forall p | p in projected :: Listed(unexpected, p.productId) || Expected(canonical, p.productId)
    ensures forall m :: m in expected + unexpected <==> Reports(canonical, projected, m)
  {
    forall m | Reports(canonical, projected, m) ensures m in expected + unexpected {
      if m.kind.UnexpectedProjection? {
        assert Listed(unexpected, m.productId);
        var n :| n in unexpected && n.productId == m.productId;
        ReportUnique(canonical, projected, m, n);
      } else {
        var c := LedgerBalance(m.productId, m.expectedQty, m.expectedLastAt);
        assert Listed(expected, m.productId) by {
          if !m.kind.MissingProjection? && ProjectedBalance(c.productId, c.qty, c.lastMovementAt) in projected {
            OneStored(projected, ProjectedBalance(c.productId, c.qty, c.lastMovementAt),
                      ProjectedBalance(m.productId, m.actualQty.value, m.actualLastAt));
          }
        }
        var n :| n in expected && n.productId == m.productId;
        ReportUnique(canonical, projected, m, n);
      }
    }
  }

  /** Nothing to report means that the two lists agree. */
  lemma ConsistentMeansAgree(canonical: seq<LedgerBalance>, projected: seq<ProjectedBalance>, ms: seq<Mismatch>)
    requires DistinctCanonical(canonical) && DistinctProjected(projected)
    requires forall m :: m in ms <==> Reports(canonical, projected, m)
    ensures ms == [] <==> Agree(canonical, projected)
  {
    if Agree(canonical, projected) {
      if ms != [] {
        var m := ms[0];
        assert Reports(canonical, projected, m);
        if !m.kind.UnexpectedProjection? && !m.kind.MissingProjection? {
          OneStored(projected, ProjectedBalance(m.productId, m.expectedQty, m.expectedLastAt),
                    ProjectedBalance(m.productId, m.actualQty.value, m.actualLastAt));
        }
      }
    } else {
      Disagreement(canonical, projected);
    }
  }

  lemma Disagreement(canonical: seq<LedgerBalance>, projected: seq<ProjectedBalance>)
    requires !Agree(canonical, projected)
    ensures exists m :: Reports(canonical, projected, m)
  {
    if c :| c in canonical && ProjectedBalance(c.productId, c.qty, c.lastMovementAt) !in projected {
      if p :| p in projected && p.productId == c.productId {
        assert Reports(canonical, projected, Compare(c, Some(p)).value);
      } else {
        assert Reports(canonical, projected, Compare(c, None).value);
      }
    } else {
      var p :| p in projected && LedgerBalance(p.productId, p.qty, p.lastMovementAt) !in canonical;
      if c :| c in canonical && c.productId == p.productId {
        assert Reports(canonical, projected, Compare(c, Some(p)).value);
      } else {
        assert Reports(canonical, projected,
                       Mismatch(p.productId, UnexpectedProjection, 0, Some(p.qty), None, p.lastMovementAt));
      }
    }
  }

  // ----- The services -----

  /** The stored balance of every product of the account is the ledger's, and
      no product of it lacks one. */
  ghost predicate ExactFor(t: Tables, userId: Uuid) {
    forall id | id in t.products && t.products[id].userId == userId ::
      && id in t.balances
      && t.balances[id].qty == LedgerQty(t.movements, userId, id)
      && t.balances[id].lastMovementAt == LedgerLast(t.movements, userId, id)
  }

  lemma ExactMeansAgree(t: Tables, userId: Uuid, canonical: seq<LedgerBalance>, projected: seq<ProjectedBalance>)
    requires LedgerBalances(t, userId, canonical) && ProjectedBalances(t, userId, projected) && ExactFor(t, userId)
    ensures Agree(canonical, projected)
  {
    forall c | c in canonical ensures ProjectedBalance(c.productId, c.qty, c.lastMovementAt) in projected {
      var i :| 0 <= i < |projected| && projected[i].productId == c.productId;
    }
    forall p | p in projected ensures LedgerBalance(p.productId, p.qty, p.lastMovementAt) in canonical {
      var i :| 0 <= i < |canonical| && canonical[i].productId == p.productId;
    }
  }

  lemma AgreeMeansExact(t: Tables, userId: Uuid, canonical: seq<LedgerBalance>, projected: seq<ProjectedBalance>)
    requires LedgerBalances(t, userId, canonical) && ProjectedBalances(t, userId, projected)
    ensures DistinctCanonical(canonical) && DistinctProjected(projected)
    ensures Agree(canonical, projected) <==> ExactFor(t, userId)
  {
    if ExactFor(t, userId) {
      ExactMeansAgree(t, userId, canonical, projected);
    }
    if Agree(canonical, projected) {
      forall id | id in t.products && t.products[id].userId == userId
        ensures id in t.balances && t.balances[id].qty == LedgerQty(t.movements, userId, id) &&
                t.balances[id].lastMovementAt == LedgerLast(t.movements, userId, id)
      {
        var i :| 0 <= i < |canonical| && canonical[i].productId == id;
        var c := canonical[i];
        assert c in canonical && ProjectedBalance(c.productId, c.qty, c.lastMovementAt) in projected;
      }
    }
  }

  /** With nothing committed between its two reads, the report is consistent
      exactly when the projection of the account is the fold of the ledger. */
  method VerifyProductBalances(db: Database, userId: Uuid, fault: Fault, now: Timestamp)
    returns (r: Result<Verification, VerifyError>)
    requires db.Valid() && !db.inTransaction
    modifies db
    ensures db.Valid() && !db.inTransaction && db.Tables() == old(db.Tables())
    ensures userId == NIL_UUID ==> r == Err(InvalidInput)
    ensures fault.Healthy? && userId != NIL_UUID ==> r.Ok?
    ensures r.Ok? ==> (r.value.consistent <==> ExactFor(db.Tables(), userId)) && Sorted(r.value.mismatches)
  {
    if userId == NIL_UUID {
      return Err(InvalidInput);
    }
    db.Begin(fault, now);
    var canonical := db.ListLedgerBalances(userId);
    if !canonical.Row? {
      db.Rollback();
      return Err(Unavailable);
    }
    var projected := db.ListProductBalances(userId);
    if !projected.Row? {
      db.Rollback();
      return Err(Unavailable);
    }
    AgreeMeansExact(db.Tables(), userId, canonical.value, projected.value);
    var v := CompareBalances(userId, canonical.value, projected.value);
    var committed := db.Commit();
    r := if committed then Ok(v) else Err(Unavailable);
  }

  /** One rebuild with nothing committed beside it repairs the account, whatever
      was stored: its projection is exact, and neither the ledger, nor any other
      table, nor a balance of another account has changed. A failed one leaves
      the balances as they were, or, when the answer to a durable COMMIT was
      lost, rebuilt. */
  method RebuildProductBalances(db: Database, userId: Uuid, fault: Fault, now: Timestamp)
    returns (r: Result<(), VerifyError>)
    requires db.Valid() && !db.inTransaction
    modifies db
    ensures db.Valid() && !db.inTransaction
    ensures var rebuilt := WithBalances(old(db.Tables()), RecomputedBalances(old(db.Tables()), userId, now));
      && (r.Ok? ==> db.Tables() == rebuilt)
      && (r.Err? ==> db.Tables() == old(db.Tables()) || (fault.LostAfter? && fault.durable && db.Tables() == rebuilt))
    ensures r.Ok? ==> ExactFor(db.Tables(), userId)
    ensures fault.Healthy? ==> (r.Ok? <==> userId != NIL_UUID)
  {
    if userId == NIL_UUID {
      return Err(InvalidInput);
    }
    db.Begin(fault, now);
    var rebuilt := db.RebuildProductBalances(userId);
    if !rebuilt.Row? {
      db.Rollback();
      return Err(Unavailable);
    }
    RecomputedIsExact(old(db.Tables()), userId, now);
    var committed := db.Commit();
    r := if committed then Ok(()) else Err(Unavailable);
  }

  lemma RecomputedIsExact(t: Tables, userId: Uuid, now: Timestamp)
    ensures var rebuilt := WithBalances(t, RecomputedBalances(t, userId, now));
      ExactFor(rebuilt, userId)
        && forall id | id in t.balances && id !in ProductsOf(t, userId) :: rebuilt.balances[id] == t.balances[id]
  {
  }
}
