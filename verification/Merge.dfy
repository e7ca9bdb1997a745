/** The client's three-way merge of product edits, its algebra, and what it
    achieves together with the server's version check: edits of different
    fields of one product converge, in whatever order they are accepted. */
module Merge {
  import opened Prelude
  import opened Schema
  import opened SyncPolicy
  import opened Invariants
  import opened Runs
  import P = ProductPolicy

  // ----- Payloads -----

  datatype Key = Id | Barcode | Sku | Name | Description | Unit | Category | MinStock | DeletedAt | Other(name: string)

  datatype Value = Null | Text(text: string) | Number(number: int32) | Instant(at: Timestamp)

  type Payload = map<Key, Value>

  const MERGE_FIELDS: seq<Key> := [Barcode, Sku, Name, Description, Unit, Category, MinStock]

  /** What a lookup yields, null when the key is absent. */
  function Lookup(p: Payload, k: Key): Value {
    if k in p then p[k] else Null
  }

  predicate HasAllFields(p: Payload) {
    Id in p && forall f | f in MERGE_FIELDS :: f in p
  }

  predicate Comparable(base: Payload, local: Payload, server: Payload) {
    && HasAllFields(base) && HasAllFields(local) && HasAllFields(server)
    && base[Id].Text? && local[Id] == base[Id] && server[Id] == base[Id]
    && Lookup(server, DeletedAt).Null?
  }

  // ----- The merge -----

  /** The editable fields whose value is not the base's. */
  function Changed(base: Payload, other: Payload): set<Key> {
    set f | f in MERGE_FIELDS && Lookup(other, f) != Lookup(base, f)
  }

  /** Local edits on top of the server's values. */
  function Merged(base: Payload, local: Payload, server: Payload): Payload {
    map f | f in {Id} + (set g | g in MERGE_FIELDS) ::
      if f == Id then Lookup(base, Id)
      else if Lookup(local, f) != Lookup(base, f) then Lookup(local, f) else Lookup(server, f)
  }

  datatype MergeResult = MergeResult(
    localChangedFields: set<Key>,
    serverChangedFields: set<Key>,
    overlappingFields: set<Key>,
    mergedPayload: Option<Payload>)
  {
    predicate CanAutoMerge() {
      mergedPayload.Some? && overlappingFields == {}
    }
  }

  /** What a client may edit: everything but the id and the server's columns. */
  const EDITABLE: set<Key> := {Barcode, Sku, Name, Description, Unit, Category, MinStock}

  lemma EditableFields()
    ensures forall f :: f in MERGE_FIELDS <==> f in EDITABLE
  {
    var s := MERGE_FIELDS;
    assert s[0] == Barcode && s[1] == Sku && s[2] == Name && s[3] == Description;
    assert s[4] == Unit && s[5] == Category && s[6] == MinStock;
  }

  /** Payloads compare when each has the id and every editable field, they are
      of one product, and the server has not deleted it. */
  lemma ComparableExactly(base: Payload, local: Payload, server: Payload)
    ensures Comparable(base, local, server) <==>
      && Id in base && Id in local && Id in server
      && (forall f | f in EDITABLE :: f in base && f in local && f in server)
      && base[Id].Text? && local[Id] == base[Id] && server[Id] == base[Id]
      && (DeletedAt in server ==> server[DeletedAt] == Null)
  {
    EditableFields();
  }

  lemma FieldInColumns(base: Payload, local: Payload, server: Payload, f: Key)
    requires Comparable(base, local, server)
    ensures f in EDITABLE ==> f in base && f in local && f in server && f in Merged(base, local, server)
    ensures f in Changed(base, local) <==> f in EDITABLE && local[f] != base[f]
    ensures f in EDITABLE ==>
      Merged(base, local, server)[f] == if local[f] != base[f] then local[f] else server[f]
  {
    EditableFields();
  }

  lemma MergedKeys(base: Payload, local: Payload, server: Payload)
    requires Comparable(base, local, server)
    ensures Merged(base, local, server).Keys == {Id} + EDITABLE && Merged(base, local, server)[Id] == base[Id]
  {
    EditableFields();
    assert (set g | g in MERGE_FIELDS) == EDITABLE;
  }

  /** The changed fields and the merged payload, field by field. */
  lemma MergeInColumns(base: Payload, local: Payload, server: Payload)
    requires Comparable(base, local, server)
    ensures Merged(base, local, server).Keys == {Id} + EDITABLE && Merged(base, local, server)[Id] == base[Id]
    ensures forall f :: f in Changed(base, local) <==> f in EDITABLE && EditedIn(base, local, f)
    ensures forall f | f in EDITABLE ::
      && f in local && f in server && f in Merged(base, local, server)
      && Merged(base, local, server)[f] == if EditedIn(base, local, f) then local[f] else server[f]
  {
    MergedKeys(base, local, server);
    forall f: Key
      ensures f in Changed(base, local) <==> f in EDITABLE && EditedIn(base, local, f)
      ensures f in EDITABLE ==>
        && f in local && f in server && f in Merged(base, local, server)
        && Merged(base, local, server)[f] == if EditedIn(base, local, f) then local[f] else server[f]
    {
      FieldInColumns(base, local, server, f);
    }
  }

  predicate EditedIn(base: Payload, local: Payload, f: Key) {
    f in base && f in local && local[f] != base[f]
  }

  method HasCompleteEditablePayload(p: Payload) returns (ok: bool)
    ensures ok <==> HasAllFields(p)
  {
    if Id !in p {
      return false;
    }
    for i := 0 to |MERGE_FIELDS|
      invariant forall k | 0 <= k < i :: MERGE_FIELDS[k] in p
    {
      if MERGE_FIELDS[i] !in p {
        assert MERGE_FIELDS[i] in MERGE_FIELDS;
        return false;
      }
    }
    ok := true;
  }

  /** Inputs that cannot be compared give no result. Otherwise the changed
      fields are exact, and there is a merged payload if and only if no field
      changed on both sides; each of its fields then has the one edited value,
      or the base's where nobody edited it. */
  method Compare(base: Payload, local: Payload, server: Payload) returns (r: Option<MergeResult>)
    ensures r.Some? <==> Comparable(base, local, server)
    ensures r.Some? ==>
      && r.value.localChangedFields == Changed(base, local) && r.value.serverChangedFields == Changed(base, server)
      && r.value.overlappingFields == Changed(base, local) * Changed(base, server)
      && (r.value.CanAutoMerge() <==> r.value.mergedPayload.Some?)
      && (r.value.mergedPayload.Some? <==> Changed(base, local) !! Changed(base, server))
      && (r.value.mergedPayload.Some? ==> r.value.mergedPayload.value == Merged(base, local, server))
  {
    var completeBase := HasCompleteEditablePayload(base);
    var completeLocal := HasCompleteEditablePayload(local);
    var completeServer := HasCompleteEditablePayload(server);
    if !completeBase || !completeLocal || !completeServer {
      return None;
    }
    if !base[Id].Text? || local[Id] != base[Id] || server[Id] != base[Id] {
      return None;
    }
    if !Lookup(server, DeletedAt).Null? {
      return None;
    }
    var localChanged, serverChanged := {}, {};
    for i := 0 to |MERGE_FIELDS|
      invariant localChanged == set f | f in MERGE_FIELDS[..i] && Lookup(local, f) != Lookup(base, f)
      invariant serverChanged == set f | f in MERGE_FIELDS[..i] && Lookup(server, f) != Lookup(base, f)
    {
      var field := MERGE_FIELDS[i];
      assert MERGE_FIELDS[..i + 1] == MERGE_FIELDS[..i] + [field];
      if Lookup(local, field) != Lookup(base, field) {
        localChanged := localChanged + {field};
      }
      if Lookup(server, field) != Lookup(base, field) {
        serverChanged := serverChanged + {field};
      }
    }
    assert MERGE_FIELDS[..|MERGE_FIELDS|] == MERGE_FIELDS;
    var overlap := localChanged * serverChanged;
    if overlap != {} {
      return Some(MergeResult(localChanged, serverChanged, overlap, None));
    }
    var merged := Overlay(base, local, server, localChanged);
    r := Some(MergeResult(localChanged, serverChanged, {}, Some(merged)));
  }

  method Overlay(base: Payload, local: Payload, server: Payload, localChanged: set<Key>) returns (merged: Payload)
    requires Comparable(base, local, server) && localChanged == Changed(base, local)
    ensures merged == Merged(base, local, server)
  {
    merged := map[Id := base[Id]];
    for i := 0 to |MERGE_FIELDS|
      invariant merged.Keys == {Id} + set f | f in MERGE_FIELDS[..i]
      invariant forall f | f in merged :: merged[f] == Merged(base, local, server)[f]
    {
      var field := MERGE_FIELDS[i];
      OneMoreField(i);
      OverlaidField(base, local, server, field);
      merged := merged[field := if field in localChanged then local[field] else server[field]];
    }
    assert MERGE_FIELDS[..|MERGE_FIELDS|] == MERGE_FIELDS;
    assert merged.Keys == Merged(base, local, server).Keys;
  }

  lemma OneMoreField(i: nat)
    requires i < |MERGE_FIELDS|
    ensures forall f :: f in MERGE_FIELDS[..i + 1] <==> f in MERGE_FIELDS[..i] || f == MERGE_FIELDS[i]
  {
    assert MERGE_FIELDS[..i + 1] == MERGE_FIELDS[..i] + [MERGE_FIELDS[i]];
  }

  lemma OverlaidField(base: Payload, local: Payload, server: Payload, f: Key)
    requires Comparable(base, local, server) && f in MERGE_FIELDS
    ensures f in local && f in server && f in Merged(base, local, server)
    ensures Merged(base, local, server)[f] == if f in Changed(base, local) then local[f] else server[f]
  {
  }

  // ----- Algebra -----

  /** Only the editable fields and the id matter. */
  predicate SameFields(a: Payload, b: Payload) {
    Lookup(a, Id) == Lookup(b, Id) && forall f | f in MERGE_FIELDS :: Lookup(a, f) == Lookup(b, f)
  }

  lemma MergedLookup(base: Payload, local: Payload, server: Payload, f: Key)
    requires f in MERGE_FIELDS
    ensures Lookup(Merged(base, local, server), f) ==
      if f in Changed(base, local) then Lookup(local, f) else Lookup(server, f)
    ensures Lookup(Merged(base, local, server), Id) == Lookup(base, Id)
  {
    assert f in (set g | g in MERGE_FIELDS);
  }

  /** On disjoint changes it does not matter which side is the local one. */
  lemma MergeSymmetric(base: Payload, local: Payload, server: Payload)
    requires Changed(base, local) !! Changed(base, server)
    ensures Merged(base, local, server) == Merged(base, server, local)
  {
    forall f | f in MERGE_FIELDS ensures Merged(base, local, server)[f] == Merged(base, server, local)[f] {
      MergedLookup(base, local, server, f);
      MergedLookup(base, server, local, f);
      assert f in Changed(base, local) <==> Lookup(local, f) != Lookup(base, f);
      assert f in Changed(base, server) <==> Lookup(server, f) != Lookup(base, f);
    }
  }

  /** Merging with an unedited side gives the other side. */
  lemma BaseIsIdentity(base: Payload, p: Payload)
    requires Lookup(p, Id) == Lookup(base, Id)
    ensures SameFields(Merged(base, p, base), p) && SameFields(Merged(base, base, p), p)
  {
    forall f | f in MERGE_FIELDS
      ensures Lookup(Merged(base, p, base), f) == Lookup(p, f) && Lookup(Merged(base, base, p), f) == Lookup(p, f)
    {
      MergedLookup(base, p, base, f);
      MergedLookup(base, base, p, f);
    }
    MergedLookup(base, p, base, Barcode);
    MergedLookup(base, base, p, Barcode);
  }

  /** The merge changes exactly what either side changed. */
  lemma MergeChangesUnion(base: Payload, local: Payload, server: Payload)
    ensures Changed(base, Merged(base, local, server)) == Changed(base, local) + Changed(base, server)
  {
    forall f | f in MERGE_FIELDS
      ensures f in Changed(base, Merged(base, local, server)) <==>
              Lookup(if f in Changed(base, local) then local else server, f) != Lookup(base, f)
    {
      MergedLookup(base, local, server, f);
    }
  }

  // ----- Several edits of one base -----

  /** No field is changed by two of the edits. */
  ghost predicate Disjoint(base: Payload, edits: seq<Payload>) {
    forall i, j | 0 <= i < j < |edits| :: Changed(base, edits[i]) !! Changed(base, edits[j])
  }

  /** Each edit in turn merged onto what the server then holds. */
  function MergeAll(base: Payload, edits: seq<Payload>, server: Payload): Payload {
    if edits == [] then server else Merged(base, edits[|edits| - 1], MergeAll(base, edits[..|edits| - 1], server))
  }

  /** Every field ends with the value of the one edit that changed it, or with
      the base's. */
  lemma {:induction false} MergeAllLookup(base: Payload, edits: seq<Payload>, f: Key)
    requires Disjoint(base, edits) && f in MERGE_FIELDS
    ensures var value := Lookup(MergeAll(base, edits, base), f);
      && (forall i | 0 <= i < |edits| && f in Changed(base, edits[i]) :: value == Lookup(edits[i], f))
      && ((forall i | 0 <= i < |edits| :: f !in Changed(base, edits[i])) ==> value == Lookup(base, f))
    ensures Lookup(MergeAll(base, edits, base), Id) == Lookup(base, Id)
  {
    if edits != [] {
      var front, last := edits[..|edits| - 1], edits[|edits| - 1];
      MergeAllLookup(base, front, f);
      MergedLookup(base, last, MergeAll(base, front, base), f);
      assert forall i | 0 <= i < |front| :: front[i] == edits[i];
    }
  }

  lemma {:induction false} MergeAllChanges(base: Payload, edits: seq<Payload>)
    ensures forall f ::
      f in Changed(base, MergeAll(base, edits, base)) <==> exists i | 0 <= i < |edits| :: f in Changed(base, edits[i])
  {
    if edits != [] {
      var front, last := edits[..|edits| - 1], edits[|edits| - 1];
      MergeAllChanges(base, front);
      MergeChangesUnion(base, last, MergeAll(base, front, base));
      assert edits == front + [last];
      forall f: Key
        ensures f in Changed(base, MergeAll(base, edits, base)) <==>
          exists i | 0 <= i < |edits| :: f in Changed(base, edits[i])
      {
        ChangedByOneMore(base, front, last, f);
      }
    }
  }

  lemma ChangedByOneMore(base: Payload, front: seq<Payload>, last: Payload, f: Key)
    ensures (exists i | 0 <= i < |front + [last]| :: f in Changed(base, (front + [last])[i])) <==>
            f in Changed(base, last) || exists i | 0 <= i < |front| :: f in Changed(base, front[i])
  {
    assert forall i | 0 <= i < |front| :: (front + [last])[i] == front[i];
    assert (front + [last])[|front|] == last;
  }

  /** An edit of its own fields never overlaps with the edits accepted before
      it, so the merge is automatic at every step. */
  lemma AlwaysAutoMerges(base: Payload, edits: seq<Payload>, i: nat)
    requires Disjoint(base, edits) && i < |edits|
    ensures Changed(base, edits[i]) !! Changed(base, MergeAll(base, edits[..i], base))
  {
    MergeAllChanges(base, edits[..i]);
    assert forall j | 0 <= j < i :: edits[..i][j] == edits[j];
  }

  /** The order of acceptance does not matter. */
  lemma MergeAllAnyOrder(base: Payload, edits: seq<Payload>, others: seq<Payload>)
    requires Disjoint(base, edits) && Disjoint(base, others) && multiset(edits) == multiset(others)
    ensures SameFields(MergeAll(base, edits, base), MergeAll(base, others, base))
  {
    forall f | f in MERGE_FIELDS
      ensures Lookup(MergeAll(base, edits, base), f) == Lookup(MergeAll(base, others, base), f)
    {
      MergeAllLookup(base, edits, f);
      MergeAllLookup(base, others, f);
      if i :| 0 <= i < |edits| && f in Changed(base, edits[i]) {
        assert edits[i] in multiset(others);
      } else {
        forall j | 0 <= j < |others| ensures f !in Changed(base, others[j]) {
          assert others[j] in multiset(edits);
        }
      }
    }
    MergeAllLookup(base, edits, Barcode);
    MergeAllLookup(base, others, Barcode);
  }

  // ----- Payloads and product rows -----

  function TextOrNull(v: Option<string>): Value {
    if v.Some? then Text(v.value) else Null
  }

  function PayloadOf(id: Value, f: Fields): Payload {
    map[Id := id, Barcode := TextOrNull(f.barcode), Sku := TextOrNull(f.sku), Name := Text(f.name),
        Description := TextOrNull(f.description), Unit := Text(f.unit), Category := TextOrNull(f.category),
        MinStock := if f.minStock.Some? then Number(f.minStock.value) else Null]
  }

  function OptionalText(v: Value): Option<string> {
    if v.Text? then Some(v.text) else None
  }

  function FieldsOf(p: Payload): Fields {
    Fields(OptionalText(Lookup(p, Barcode)), OptionalText(Lookup(p, Sku)),
           if Lookup(p, Name).Text? then Lookup(p, Name).text else "", OptionalText(Lookup(p, Description)),
           if Lookup(p, Unit).Text? then Lookup(p, Unit).text else "", OptionalText(Lookup(p, Category)),
           if Lookup(p, MinStock).Number? then Some(Lookup(p, MinStock).number) else None)
  }

  /** A payload whose values are normalized: no blank texts, required texts
      present, the right types. */
  predicate Normal(p: Payload) {
    forall f | f in MERGE_FIELDS :: NormalValue(f, Lookup(p, f))
  }

  predicate NormalValue(f: Key, v: Value) {
    match f
    case Name => v.Text? && v.text != ""
    case Unit => v.Text? && v.text != ""
    case MinStock => v.Null? || v.Number?
    case _ => v.Null? || (v.Text? && v.text != "")
  }

  lemma NormalMerge(base: Payload, local: Payload, server: Payload)
    requires Normal(local) && Normal(server)
    ensures Normal(Merged(base, local, server))
  {
    forall f | f in MERGE_FIELDS ensures NormalValue(f, Lookup(Merged(base, local, server), f)) {
      MergedLookup(base, local, server, f);
    }
  }

  lemma FieldsListed()
    ensures Barcode in MERGE_FIELDS && Sku in MERGE_FIELDS && Name in MERGE_FIELDS && Description in MERGE_FIELDS
    ensures Unit in MERGE_FIELDS && Category in MERGE_FIELDS && MinStock in MERGE_FIELDS
    ensures forall f | f in MERGE_FIELDS :: f in {Barcode, Sku, Name, Description, Unit, Category, MinStock}
  {
    assert MERGE_FIELDS[0] == Barcode && MERGE_FIELDS[1] == Sku && MERGE_FIELDS[2] == Name
      && MERGE_FIELDS[3] == Description;
    assert MERGE_FIELDS[4] == Unit && MERGE_FIELDS[5] == Category && MERGE_FIELDS[6] == MinStock;
  }

  lemma ReadsBack(p: Payload, f: Key)
    requires f in MERGE_FIELDS && NormalValue(f, Lookup(p, f))
    ensures Lookup(PayloadOf(Lookup(p, Id), FieldsOf(p)), f) == Lookup(p, f)
  {
    FieldsListed();
  }

  /** A normalized payload survives the way into a product row and back. */
  lemma RowRoundTrip(p: Payload)
    requires Normal(p)
    ensures P.NormalizeFields(FieldsOf(p)) == FieldsOf(p)
    ensures SameFields(PayloadOf(Lookup(p, Id), FieldsOf(p)), p)
  {
    FieldsListed();
    forall f | f in MERGE_FIELDS ensures Lookup(PayloadOf(Lookup(p, Id), FieldsOf(p)), f) == Lookup(p, f) {
      ReadsBack(p, f);
    }
    assert forall f | f in MERGE_FIELDS :: NormalValue(f, Lookup(p, f));
  }

  lemma SameText(a: Option<string>, b: Option<string>)
    requires TextOrNull(a) == TextOrNull(b)
    ensures a == b
  {
  }

  lemma SameRow(id: Value, f: Fields, g: Fields)
    requires SameFields(PayloadOf(id, f), PayloadOf(id, g))
    ensures f == g
  {
    FieldsListed();
    var a, b := PayloadOf(id, f), PayloadOf(id, g);
    assert Lookup(a, Barcode) == Lookup(b, Barcode) && Lookup(a, Sku) == Lookup(b, Sku)
      && Lookup(a, Name) == Lookup(b, Name);
    assert Lookup(a, Description) == Lookup(b, Description) && Lookup(a, Unit) == Lookup(b, Unit);
    assert Lookup(a, Category) == Lookup(b, Category) && Lookup(a, MinStock) == Lookup(b, MinStock);
    SameText(f.barcode, g.barcode);
    SameText(f.sku, g.sku);
    SameText(f.description, g.description);
    SameText(f.category, g.category);
  }

  lemma MergeOntoSame(base: Payload, local: Payload, a: Payload, b: Payload)
    requires SameFields(a, b)
    ensures SameFields(Merged(base, local, a), Merged(base, local, b))
  {
    forall f | f in MERGE_FIELDS ensures Lookup(Merged(base, local, a), f) == Lookup(Merged(base, local, b), f) {
      MergedLookup(base, local, a, f);
      MergedLookup(base, local, b, f);
    }
    MergedLookup(base, local, a, Barcode);
    MergedLookup(base, local, b, Barcode);
  }

  // ----- Together with the server -----

  ghost predicate AppliedNow(t: Tables, d: Delivery) {
    Committed(t, d) && d.Key() !in t.syncOps && Process(t, d.who, d.op, d.clock).result.status.Applied?
  }

  /** One delivery of a run. With an edit, it is accepted, and it carries that
      edit merged onto the fields the server then holds. Without one, it is
      anything that leaves the product's row alone: a refused attempt, a
      movement, an operation on another product. */
  ghost predicate MergeStep(t: Tables, d: Delivery, base: Payload, edit: Option<Payload>, id: Uuid) {
    && id in t.products
    && if edit.Some? then
         && d.op.payload ==
           UpsertProduct(id, FieldsOf(Merged(base, edit.value, PayloadOf(Lookup(base, Id), t.products[id].fields))))
         && AppliedNow(t, d)
       else id in Deliver(t, d).products && Deliver(t, d).products[id] == t.products[id]
  }

  ghost predicate MergingRun(t: Tables, ds: seq<Delivery>, base: Payload, picks: seq<Option<Payload>>, id: Uuid) {
    |picks| == |ds| && forall i | 0 <= i < |ds| :: MergeStep(Run(t, ds[..i]), ds[i], base, picks[i], id)
  }

  function Edits(picks: seq<Option<Payload>>): seq<Payload> {
    if picks == [] then []
    else Edits(picks[..|picks| - 1]) + (if picks[|picks| - 1].Some? then [picks[|picks| - 1].value] else [])
  }

  /** An accepted upsert of a known product writes exactly its fields, in the
      next version. */
  lemma AppliedUpsert(t: Tables, d: Delivery, id: Uuid, fields: Fields)
    requires Keyed(t) && id in t.products && d.op.payload == UpsertProduct(id, fields) && AppliedNow(t, d)
    ensures id in Deliver(t, d).products
    ensures Deliver(t, d).products[id].fields == P.NormalizeFields(fields)
    ensures Deliver(t, d).products[id].version == t.products[id].version + 1
  {
    var decision := DeliverCases(t, d);
  }

  lemma MergeStepLands(t: Tables, d: Delivery, base: Payload, edit: Payload, id: Uuid)
    requires Keyed(t) && MergeStep(t, d, base, Some(edit), id) && Normal(edit)
    requires Normal(PayloadOf(Lookup(base, Id), t.products[id].fields))
    ensures id in Deliver(t, d).products
    ensures var held := PayloadOf(Lookup(base, Id), t.products[id].fields);
      var next := PayloadOf(Lookup(base, Id), Deliver(t, d).products[id].fields);
      Normal(next) && SameFields(next, Merged(base, edit, held))
    ensures Deliver(t, d).products[id].version == t.products[id].version + 1
  {
    var held := PayloadOf(Lookup(base, Id), t.products[id].fields);
    var merged := Merged(base, edit, held);
    AppliedUpsert(t, d, id, FieldsOf(merged));
    NormalMerge(base, edit, held);
    RowRoundTrip(merged);
    MergedLookup(base, edit, held, Barcode);
    assert SameFields(PayloadOf(Lookup(base, Id), FieldsOf(merged)), merged);
    NormalSame(merged, PayloadOf(Lookup(base, Id), FieldsOf(merged)));
  }

  lemma NormalSame(a: Payload, b: Payload)
    requires Normal(a) && SameFields(a, b)
    ensures Normal(b)
  {
    forall f | f in MERGE_FIELDS ensures NormalValue(f, Lookup(b, f)) {
      assert NormalValue(f, Lookup(a, f));
    }
  }

  lemma MergingFront(t: Tables, ds: seq<Delivery>, base: Payload, picks: seq<Option<Payload>>, id: Uuid)
    requires ds != [] && MergingRun(t, ds, base, picks, id)
    ensures MergingRun(t, ds[..|ds| - 1], base, picks[..|ds| - 1], id)
  {
    var n := |ds| - 1;
    forall i | 0 <= i < n ensures MergeStep(Run(t, ds[..n][..i]), ds[..n][i], base, picks[..n][i], id) {
      FrontStep(t, ds, base, picks, id, n, i);
    }
  }

  lemma FrontStep(t: Tables, ds: seq<Delivery>, base: Payload, picks: seq<Option<Payload>>, id: Uuid, n: nat, i: nat)
    requires i < n <= |ds| && |picks| == |ds| && MergeStep(Run(t, ds[..i]), ds[i], base, picks[i], id)
    ensures MergeStep(Run(t, ds[..n][..i]), ds[..n][i], base, picks[..n][i], id)
  {
    assert ds[..n][..i] == ds[..i] && ds[..n][i] == ds[i] && picks[..n][i] == picks[i];
  }

  /** The product row follows the fold of the edits, one version per edit. */
  lemma {:induction false} RunMerges(t: Tables, ds: seq<Delivery>, base: Payload, picks: seq<Option<Payload>>, id: Uuid)
    requires Valid(t) && id in t.products && MergingRun(t, ds, base, picks, id)
    requires SameFields(PayloadOf(Lookup(base, Id), t.products[id].fields), base) && Normal(base)
    requires forall e | e in Edits(picks) :: Normal(e)
    ensures id in Run(t, ds).products
    ensures var held := PayloadOf(Lookup(base, Id), Run(t, ds).products[id].fields);
      Normal(held) && SameFields(held, MergeAll(base, Edits(picks), base))
    ensures Run(t, ds).products[id].version == t.products[id].version + |Edits(picks)|
  {
    if ds == [] {
      NormalSame(base, PayloadOf(Lookup(base, Id), t.products[id].fields));
    } else {
      var n := |ds| - 1;
      var front, some := ds[..n], picks[..n];
      MergingFront(t, ds, base, picks, id);
      RunMerges(t, front, base, some, id);
      RunValid(t, front);
      assert MergeStep(Run(t, front), ds[n], base, picks[n], id);
      OneMoreMerge(Run(t, front), ds[n], base, Edits(some), picks[n], id);
      assert Edits(picks) == if picks[n].Some? then Edits(some) + [picks[n].value] else Edits(some);
    }
  }

  lemma MergeAllOneMore(base: Payload, edits: seq<Payload>, edit: Payload)
    ensures MergeAll(base, edits + [edit], base) == Merged(base, edit, MergeAll(base, edits, base))
  {
    assert (edits + [edit])[..|edits|] == edits;
  }

  lemma OneMoreEdit(t: Tables, d: Delivery, base: Payload, edits: seq<Payload>, edit: Payload, id: Uuid)
    requires Keyed(t) && MergeStep(t, d, base, Some(edit), id) && Normal(edit)
    requires Normal(PayloadOf(Lookup(base, Id), t.products[id].fields))
    requires SameFields(PayloadOf(Lookup(base, Id), t.products[id].fields), MergeAll(base, edits, base))
    ensures id in Deliver(t, d).products
    ensures var held := PayloadOf(Lookup(base, Id), Deliver(t, d).products[id].fields);
      Normal(held) && SameFields(held, MergeAll(base, edits + [edit], base))
    ensures Deliver(t, d).products[id].version == t.products[id].version + 1
  {
    MergeStepLands(t, d, base, edit, id);
    MergeOntoSame(base, edit, PayloadOf(Lookup(base, Id), t.products[id].fields), MergeAll(base, edits, base));
    MergeAllOneMore(base, edits, edit);
  }

  lemma OneMoreMerge(t: Tables, d: Delivery, base: Payload, edits: seq<Payload>, edit: Option<Payload>, id: Uuid)
    requires Keyed(t) && MergeStep(t, d, base, edit, id) && (edit.Some? ==> Normal(edit.value))
    requires Normal(PayloadOf(Lookup(base, Id), t.products[id].fields))
    requires SameFields(PayloadOf(Lookup(base, Id), t.products[id].fields), MergeAll(base, edits, base))
    ensures id in Deliver(t, d).products
    ensures var held := PayloadOf(Lookup(base, Id), Deliver(t, d).products[id].fields);
      Normal(held) && SameFields(held, MergeAll(base, if edit.Some? then edits + [edit.value] else edits, base))
    ensures Deliver(t, d).products[id].version == t.products[id].version + (if edit.Some? then 1 else 0)
  {
    if edit.Some? {
      OneMoreEdit(t, d, base, edits, edit.value, id);
    } else {
      assert Deliver(t, d).products[id] == t.products[id];
    }
  }

  /** Edits of one base that change different fields, each merged onto what the
      server holds when it is finally accepted, lead to the same product,
      whatever the order of acceptance and whatever happens in between; and
      each field then has the value of the one edit that changed it. */
  lemma DisjointEditsConverge(t: Tables, ds: seq<Delivery>, picks: seq<Option<Payload>>,
                              es: seq<Delivery>, others: seq<Option<Payload>>, base: Payload, id: Uuid)
    requires Valid(t) && id in t.products
    requires SameFields(PayloadOf(Lookup(base, Id), t.products[id].fields), base) && Normal(base)
    requires MergingRun(t, ds, base, picks, id) && MergingRun(t, es, base, others, id)
    requires multiset(Edits(picks)) == multiset(Edits(others))
    requires Disjoint(base, Edits(picks)) && Disjoint(base, Edits(others))
    requires forall e | e in Edits(picks) :: Normal(e)
    ensures id in Run(t, ds).products && id in Run(t, es).products
    ensures Run(t, ds).products[id].fields == Run(t, es).products[id].fields
    ensures Run(t, ds).products[id].version ==
      Run(t, es).products[id].version == t.products[id].version + |Edits(picks)|
    ensures var held := PayloadOf(Lookup(base, Id), Run(t, ds).products[id].fields);
      forall f, i | f in MERGE_FIELDS && 0 <= i < |Edits(picks)| && f in Changed(base, Edits(picks)[i]) ::
        Lookup(held, f) == Lookup(Edits(picks)[i], f)
  {
    forall e | e in Edits(others) ensures Normal(e) {
      assert e in multiset(Edits(picks));
    }
    RunMerges(t, ds, base, picks, id);
    RunMerges(t, es, base, others, id);
    MergeAllAnyOrder(base, Edits(picks), Edits(others));
    SameRow(Lookup(base, Id), Run(t, ds).products[id].fields, Run(t, es).products[id].fields);
    assert |multiset(Edits(picks))| == |Edits(picks)| && |multiset(Edits(others))| == |Edits(others)|;
    forall f | f in MERGE_FIELDS
      ensures forall i | 0 <= i < |Edits(picks)| && f in Changed(base, Edits(picks)[i]) ::
        Lookup(MergeAll(base, Edits(picks), base), f) == Lookup(Edits(picks)[i], f)
    {
      MergeAllLookup(base, Edits(picks), f);
    }
  }
}
