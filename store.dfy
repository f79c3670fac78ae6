/** The record store of `api/database.js`: named tables of records kept in a
    string-keyed store, and the secondary indexes kept beside them. */
module Store {
  import opened JsValue
  import opened Seqs

  const CitizensTable := "citizens"
  const RegistrationsTable := "registrations"
  const CentersTable := "centers"
  const CoursesTable := "courses"
  const GraduatesTable := "graduates"
  const CertificatesTable := "certificates"
  const EmployersTable := "empregadores"
  const InternshipsTable := "internships"
  const JobListingsTable := "job_listings"
  const NotificationsTable := "notifications"
  const ActivitiesTable := "activities"
  const VerificationsTable := "verifications"

  /** The twelve tables `exportData` and `clearAllData` walk. */
  const TableNames: seq<string> := [
    CitizensTable, RegistrationsTable, CentersTable, CoursesTable, GraduatesTable, CertificatesTable,
    EmployersTable, InternshipsTable, JobListingsTable, NotificationsTable, ActivitiesTable, VerificationsTable]

  /** The key-value substrate, seen through the table keys: table name to stored records. */
  type Tables = map<string, seq<Record>>

  /** `load`: a table that was never written reads as empty. */
  function TableOf(tables: Tables, name: string): seq<Record>
  {
    if name in tables then tables[name] else []
  }

  /** What `save` writes under one table is what `load` reads back from it; the other tables are untouched. */
  lemma LoadAfterWrite(tables: Tables, name: string, rs: seq<Record>, other: string)
    ensures TableOf(tables[name := rs], other) == if other == name then rs else TableOf(tables, other)
  {
  }

  function HasId(id: string): Record -> bool
  {
    (r: Record) => r.id == id
  }

  /** `item => item.id === id` for an id that may be any value. */
  function IdIs(id: Option<Value>): Record -> bool
  {
    (r: Record) => StrictEquals(Some(Str(r.id)), id)
  }

  function IdIsNot(id: Option<Value>): Record -> bool
  {
    (r: Record) => !StrictEquals(Some(Str(r.id)), id)
  }

  /** `item => item[name] === value`. */
  function FieldIs(name: string, value: Option<Value>): Record -> bool
  {
    (r: Record) => StrictEquals(Field(r, name), value)
  }

  /** A new record as `save` stores it: `createdAt` and `updatedAt` set to the
      clock. What is written is the JSON text, so no `undefined` property is kept. */
  function Stamp(data: Record, now: int): (r: Record)
    ensures r.id == data.id && r.cleared == {}
    ensures Field(r, "createdAt") == Some(Num(now)) && Field(r, "updatedAt") == Some(Num(now))
    ensures forall f :: f != "createdAt" && f != "updatedAt" ==> Field(r, f) == Field(data, f)
  {
    Record(data.id, data.fields["createdAt" := Num(now)]["updatedAt" := Num(now)], {})
  }

  /** `{ ...existing, ...data, updatedAt: now }` as written to JSON: the caller's
      properties override the stored ones, and one the caller holds as `undefined`
      overrides too, so the stored value is gone once the text is written. */
  function Merge(existing: Record, data: Record, now: int): (r: Record)
    ensures r.id == existing.id && r.cleared == {}
    ensures Field(r, "updatedAt") == Some(Num(now))
    ensures forall f :: f != "id" && f != "updatedAt" ==>
      Field(r, f) == (if f in data.fields then Some(data.fields[f])
                      else if f in data.cleared then None
                      else Field(existing, f))
  {
    Record(existing.id, ((existing.fields - data.cleared) + data.fields)["updatedAt" := Num(now)], {})
  }

  /** The caller's object was read from the stored one and every stored property
      was kept or reassigned: the merge holds exactly the caller's properties. */
  lemma MergeOfDerived(existing: Record, data: Record, now: int)
    requires existing.id == data.id
    requires forall f :: f in existing.fields ==> f in data.fields || f in data.cleared
    ensures forall f :: f != "updatedAt" ==> Field(Merge(existing, data, now), f) == Field(data, f)
  {
  }

  /** The table `save` writes back: the first record with the caller's id is
      merged in place, or else the stamped record is appended. */
  function Upsert(rs: seq<Record>, data: Record, now: int): (r: seq<Record>)
    ensures (forall k :: 0 <= k < |rs| ==> rs[k].id != data.id) ==> r == rs + [Stamp(data, now)]
    ensures forall i :: 0 <= i < |rs| && rs[i].id == data.id && (forall k :: 0 <= k < i ==> rs[k].id != data.id) ==>
      |r| == |rs| && r[i] == Merge(rs[i], data, now) && forall k :: 0 <= k < |rs| && k != i ==> r[k] == rs[k]
  {
    var i := FindIndex(rs, HasId(data.id));
    if i >= 0 then rs[i := Merge(rs[i], data, now)] else rs + [Stamp(data, now)]
  }

  /** Saving a record under a fresh id and then saving again what the first `save`
      returned (the caller's object, which `save` stamps in place) leaves exactly one
      record with that id: it keeps the first stamp as `createdAt` and takes the
      second as `updatedAt`. */
  lemma SaveTwiceKeepsOne(rs: seq<Record>, data: Record, t1: int, t2: int)
    requires forall k :: 0 <= k < |rs| ==> rs[k].id != data.id
    ensures var r := Upsert(Upsert(rs, data, t1), Stamp(data, t1), t2);
      && |r| == |rs| + 1
      && Count(r, HasId(data.id)) == 1
      && Field(r[|rs|], "createdAt") == Some(Num(t1)) && Field(r[|rs|], "updatedAt") == Some(Num(t2))
      && forall f :: f != "createdAt" && f != "updatedAt" ==> Field(r[|rs|], f) == Field(data, f)
  {
    var stamped := Stamp(data, t1);
    var m := Merge(stamped, stamped, t2);
    SaveTwiceShape(rs, data, t1, t2);
    CountOneAtEnd(rs, m, data.id);
  }

  /** Helper: the second save merges into the record the first one appended. */
  lemma SaveTwiceShape(rs: seq<Record>, data: Record, t1: int, t2: int)
    requires forall k :: 0 <= k < |rs| ==> rs[k].id != data.id
    ensures Upsert(Upsert(rs, data, t1), Stamp(data, t1), t2) == rs + [Merge(Stamp(data, t1), Stamp(data, t1), t2)]
  {
    var once := Upsert(rs, data, t1);
    assert once == rs + [Stamp(data, t1)];
    UpsertAtFirst(once, Stamp(data, t1), t2, |rs|);
  }

  /** Helper: one matching record, at the end. */
  lemma CountOneAtEnd(rs: seq<Record>, m: Record, id: string)
    requires forall k :: 0 <= k < |rs| ==> rs[k].id != id
    requires m.id == id
    ensures Count(rs + [m], HasId(id)) == 1
  {
    FilterAppend(rs, [m], HasId(id));
    NoneMatch(rs, HasId(id));
    assert [m][1..] == [];
  }

  /** Helper: `Upsert` when the first record with the id sits at `i`. */
  lemma UpsertAtFirst(rs: seq<Record>, data: Record, now: int, i: int)
    requires 0 <= i < |rs| && rs[i].id == data.id
    requires forall k :: 0 <= k < i ==> rs[k].id != data.id
    ensures Upsert(rs, data, now) == rs[i := Merge(rs[i], data, now)]
  {
    var j := FindIndex(rs, HasId(data.id));
    assert HasId(data.id)(rs[i]);
    assert j == i;
  }

  // ---------------------------------------------------------------------------
  // Secondary indexes

  /** An index from a property key to the ids listed under it. */
  type ListIndex = map<string, seq<string>>

  /** The six index keys `initializeIndexes` names, as values. */
  datatype Indexes = Indexes(
    citizensByBi: map<string, string>,
    citizensByEmail: map<string, string>,
    registrationsByCitizen: ListIndex,
    registrationsByStatus: ListIndex,
    centersByProvince: ListIndex,
    graduatesByCompetency: ListIndex)

  const NoIndexes := Indexes(map[], map[], map[], map[], map[], map[])

  /** The property key a record's field becomes when it indexes an object. */
  function KeyOf(r: Record, name: string): string
  {
    JsString(Field(r, name))
  }

  predicate Listed(idx: ListIndex, key: string, id: string)
  {
    key in idx && id in idx[key]
  }

  predicate Distinct(ids: seq<string>)
  {
    forall i, j :: 0 <= i < j < |ids| ==> ids[i] != ids[j]
  }

  /** No key lists the same id twice. */
  predicate DistinctLists(idx: ListIndex)
  {
    forall k :: k in idx ==> Distinct(idx[k])
  }

  /** `if (!idx[key]) idx[key] = []; if (!idx[key].includes(id)) idx[key].push(id);` */
  function AddId(idx: ListIndex, key: string, id: string): (r: ListIndex)
    ensures r.Keys == idx.Keys + {key}
    ensures Listed(r, key, id)
    ensures forall k, x :: Listed(r, k, x) <==> Listed(idx, k, x) || (k == key && x == id)
    ensures forall k :: k in idx && k != key ==> r[k] == idx[k]
    ensures DistinctLists(idx) ==> DistinctLists(r)
  {
    var ids := if key in idx then idx[key] else [];
    if id in ids then idx[key := ids] else idx[key := ids + [id]]
  }

  /** A citizen's BI and email keys point at its id, the last write winning; nothing else changes. */
  function IndexCitizen(ix: Indexes, r: Record): (n: Indexes)
    ensures Grows(ix, n) && RecordCovered(n, CitizensTable, r)
    ensures n.citizensByBi[KeyOf(r, "bi")] == r.id && n.citizensByEmail[KeyOf(r, "email")] == r.id
    ensures n.(citizensByBi := ix.citizensByBi, citizensByEmail := ix.citizensByEmail) == ix
  {
    ix.(citizensByBi := ix.citizensByBi[KeyOf(r, "bi") := r.id],
        citizensByEmail := ix.citizensByEmail[KeyOf(r, "email") := r.id])
  }

  /** A registration is listed under its citizen and its current status; nothing else changes. */
  function IndexRegistration(ix: Indexes, r: Record): (n: Indexes)
    ensures Grows(ix, n) && RecordCovered(n, RegistrationsTable, r)
    ensures AllDistinct(ix) ==> AllDistinct(n)
    ensures n.(registrationsByCitizen := ix.registrationsByCitizen, registrationsByStatus := ix.registrationsByStatus) == ix
  {
    ix.(registrationsByCitizen := AddId(ix.registrationsByCitizen, KeyOf(r, "citizenId"), r.id),
        registrationsByStatus := AddId(ix.registrationsByStatus, KeyOf(r, "status"), r.id))
  }

  /** A center is listed under its province; nothing else changes. */
  function IndexCenter(ix: Indexes, r: Record): (n: Indexes)
    ensures Grows(ix, n) && RecordCovered(n, CentersTable, r)
    ensures AllDistinct(ix) ==> AllDistinct(n)
    ensures n.(centersByProvince := ix.centersByProvince) == ix
  {
    ix.(centersByProvince := AddId(ix.centersByProvince, KeyOf(r, "province"), r.id))
  }

  /** `comp.area` as a property key; reading it from `null` throws. */
  function AreaOf(comp: Value): (r: Option<string>)
    ensures r.Some? <==> comp != Null
  {
    match comp
    case Null => None
    case Obj(m) => Some(JsString(if "area" in m then Some(m["area"]) else None))
    case _ => Some("undefined")
  }

  /** A graduate's `competencies`, when it is an array. */
  function Competencies(r: Record): seq<Value>
  {
    match Field(r, "competencies")
    case Some(Arr(items)) => items
    case _ => []
  }

  /** `graduate.competencies.forEach(...)` runs to the end: the field is an array with no `null` in it. */
  predicate GraduateIndexable(r: Record)
  {
    && Field(r, "competencies").Some?
    && Field(r, "competencies").value.Arr?
    && forall i :: 0 <= i < |Competencies(r)| ==> Competencies(r)[i] != Null
  }

  /** The `forEach` of `updateGraduateIndexes`; `None` when it throws. */
  function AddAreas(idx: ListIndex, comps: seq<Value>, id: string): (r: Option<ListIndex>)
    decreases |comps|
    ensures r.Some? <==> forall i :: 0 <= i < |comps| ==> comps[i] != Null
    ensures r.Some? ==> forall k, x :: Listed(r.value, k, x) <==>
      Listed(idx, k, x) || (x == id && exists i :: 0 <= i < |comps| && AreaOf(comps[i]) == Some(k))
    ensures r.Some? && DistinctLists(idx) ==> DistinctLists(r.value)
  {
    if comps == [] then Some(idx)
    else match AreaOf(comps[0])
      case None => None
      case Some(area) =>
        var rest := AddAreas(AddId(idx, area, id), comps[1..], id);
        if rest.Some? then
          assert forall i :: 1 <= i < |comps| ==> comps[i] == comps[1..][i - 1];
          rest
        else rest
  }

  /** A graduate is listed under each competency area, or the walk throws; nothing else changes. */
  function IndexGraduate(ix: Indexes, r: Record): (n: Option<Indexes>)
    ensures n.Some? <==> GraduateIndexable(r)
    ensures n.Some? ==> n.value.(graduatesByCompetency := ix.graduatesByCompetency) == ix
  {
    match AddAreas(ix.graduatesByCompetency, Competencies(r), r.id)
    case None => None
    case Some(g) => if GraduateIndexable(r) then Some(ix.(graduatesByCompetency := g)) else None
  }

  /** `updateIndexes`: which indexes a write to `table` touches; `None` when indexing throws. */
  function IndexRecord(ix: Indexes, table: string, r: Record): (n: Option<Indexes>)
    ensures n.None? <==> table == GraduatesTable && !GraduateIndexable(r)
    ensures table !in {CitizensTable, RegistrationsTable, CentersTable, GraduatesTable} ==> n == Some(ix)
  {
    if table == CitizensTable then Some(IndexCitizen(ix, r))
    else if table == RegistrationsTable then Some(IndexRegistration(ix, r))
    else if table == CentersTable then Some(IndexCenter(ix, r))
    else if table == GraduatesTable then IndexGraduate(ix, r)
    else Some(ix)
  }

  /** The records `save` hands to `updateIndexes`: the caller's object, stamped
      in place when it was appended. */
  function SavedRecord(rs: seq<Record>, data: Record, now: int): (saved: Record)
    ensures saved.id == data.id
    ensures forall f :: f != "createdAt" && f != "updatedAt" ==> Field(saved, f) == Field(data, f)
    ensures (exists k :: 0 <= k < |rs| && rs[k].id == data.id) ==> saved == data
  {
    if FindIndex(rs, HasId(data.id)) >= 0 then data else Stamp(data, now)
  }

  /** A table without indexes leaves them as they are. */
  lemma IndexRecordUnindexed(ix: Indexes, table: string, r: Record)
    requires table !in {CitizensTable, RegistrationsTable, CentersTable, GraduatesTable}
    ensures IndexRecord(ix, table, r) == Some(ix)
  {
  }

  /** Indexing throws only on a graduate whose competencies cannot be walked. */
  lemma IndexRecordFails(ix: Indexes, table: string, r: Record)
    ensures IndexRecord(ix, table, r).None? <==> table == GraduatesTable && !GraduateIndexable(r)
  {
  }

  /** Stamping does not change any indexed property. */
  lemma IndexRecordStamp(ix: Indexes, table: string, data: Record, now: int)
    ensures IndexRecord(ix, table, Stamp(data, now)) == IndexRecord(ix, table, data)
  {
    var st := Stamp(data, now);
    assert Field(st, "competencies") == Field(data, "competencies");
    assert KeyOf(st, "bi") == KeyOf(data, "bi") && KeyOf(st, "email") == KeyOf(data, "email");
    assert KeyOf(st, "citizenId") == KeyOf(data, "citizenId") && KeyOf(st, "status") == KeyOf(data, "status");
    assert KeyOf(st, "province") == KeyOf(data, "province");
  }

  // ---------------------------------------------------------------------------
  // Which stored records the indexes account for

  /** Every entry of `a` is also in `b`. */
  ghost predicate ListWithin(a: ListIndex, b: ListIndex)
  {
    forall k, x :: Listed(a, k, x) ==> Listed(b, k, x)
  }

  /** The four list-valued indexes of `a` are contained in those of `b`. */
  ghost predicate ListsWithin(a: Indexes, b: Indexes)
  {
    && ListWithin(a.registrationsByCitizen, b.registrationsByCitizen)
    && ListWithin(a.registrationsByStatus, b.registrationsByStatus)
    && ListWithin(a.centersByProvince, b.centersByProvince)
    && ListWithin(a.graduatesByCompetency, b.graduatesByCompetency)
  }

  /** `b` only adds to `a`: no list loses an id, and no BI or email key disappears. */
  ghost predicate Grows(a: Indexes, b: Indexes)
  {
    && a.citizensByBi.Keys <= b.citizensByBi.Keys
    && a.citizensByEmail.Keys <= b.citizensByEmail.Keys
    && ListsWithin(a, b)
  }

  predicate AllDistinct(ix: Indexes)
  {
    && DistinctLists(ix.registrationsByCitizen)
    && DistinctLists(ix.registrationsByStatus)
    && DistinctLists(ix.centersByProvince)
    && DistinctLists(ix.graduatesByCompetency)
  }

  /** The index entries a record of `table` is responsible for are present. */
  ghost predicate RecordCovered(ix: Indexes, table: string, r: Record)
  {
    if table == CitizensTable then
      KeyOf(r, "bi") in ix.citizensByBi && KeyOf(r, "email") in ix.citizensByEmail
    else if table == RegistrationsTable then
      Listed(ix.registrationsByCitizen, KeyOf(r, "citizenId"), r.id)
      && Listed(ix.registrationsByStatus, KeyOf(r, "status"), r.id)
    else if table == CentersTable then
      Listed(ix.centersByProvince, KeyOf(r, "province"), r.id)
    else if table == GraduatesTable then
      GraduateIndexable(r) ==>
        forall i :: 0 <= i < |Competencies(r)| ==>
          Listed(ix.graduatesByCompetency, AreaOf(Competencies(r)[i]).value, r.id)
    else true
  }

  ghost predicate TableCovered(tables: Tables, ix: Indexes, table: string)
  {
    forall r :: r in TableOf(tables, table) ==> RecordCovered(ix, table, r)
  }

  /** Every stored citizen, registration, center and walkable graduate is indexed. */
  ghost predicate Covers(tables: Tables, ix: Indexes)
  {
    && TableCovered(tables, ix, CitizensTable)
    && TableCovered(tables, ix, RegistrationsTable)
    && TableCovered(tables, ix, CentersTable)
    && TableCovered(tables, ix, GraduatesTable)
  }

  /** One index update only adds, keeps lists duplicate-free, and covers the record it indexed. */
  lemma {:induction false} IndexRecordStep(ix: Indexes, table: string, r: Record)
    requires IndexRecord(ix, table, r).Some?
    ensures Grows(ix, IndexRecord(ix, table, r).value)
    ensures RecordCovered(IndexRecord(ix, table, r).value, table, r)
    ensures AllDistinct(ix) ==> AllDistinct(IndexRecord(ix, table, r).value)
  {
    if table == CitizensTable {
      assert IndexRecord(ix, table, r).value == IndexCitizen(ix, r);
    } else if table == RegistrationsTable {
    } else if table == CentersTable {
    } else if table == GraduatesTable {
      IndexGraduateStep(ix, r);
    } else {
      assert IndexRecord(ix, table, r).value == ix;
    }
  }

  lemma {:induction false} IndexGraduateStep(ix: Indexes, r: Record)
    requires IndexGraduate(ix, r).Some?
    ensures Grows(ix, IndexGraduate(ix, r).value)
    ensures RecordCovered(IndexGraduate(ix, r).value, GraduatesTable, r)
    ensures AllDistinct(ix) ==> AllDistinct(IndexGraduate(ix, r).value)
  {
    var n := IndexGraduate(ix, r).value;
    var comps := Competencies(r);
    forall i | 0 <= i < |comps| ensures Listed(n.graduatesByCompetency, AreaOf(comps[i]).value, r.id) {
      var k := AreaOf(comps[i]).value;
      assert exists j :: 0 <= j < |comps| && AreaOf(comps[j]) == Some(k);
    }
  }

  lemma CoveredGrows(a: Indexes, b: Indexes, table: string, r: Record)
    requires Grows(a, b) && RecordCovered(a, table, r)
    ensures RecordCovered(b, table, r)
  {
  }

  /** Each record of the table `save` writes is an untouched old record, the
      appended stamped record, or the merge of the caller's data into the old
      record with the same id. */
  lemma {:induction false} UpsertMembers(rs: seq<Record>, data: Record, now: int, r: Record)
    requires r in Upsert(rs, data, now)
    ensures || r in rs
            || r == Stamp(data, now)
            || exists e :: e in rs && e.id == data.id && r == Merge(e, data, now)
  {
    var i := FindIndex(rs, HasId(data.id));
    if i >= 0 {
      assert HasId(data.id)(rs[i]);
      var k :| 0 <= k < |Upsert(rs, data, now)| && Upsert(rs, data, now)[k] == r;
      if k != i {
        assert r == rs[k];
      }
    }
  }

  /** The merged record carries the caller's index keys, or the old record's where the caller left them out. */
  lemma MergeCovered(ix: Indexes, next: Indexes, table: string, e: Record, data: Record, now: int)
    requires e.id == data.id
    requires Grows(ix, next) && RecordCovered(ix, table, e)
    requires IndexRecord(ix, table, data).Some? ==> RecordCovered(next, table, data)
    requires IndexRecord(ix, table, data).None? ==> next == ix
    ensures RecordCovered(next, table, Merge(e, data, now))
  {
    CoveredGrows(ix, next, table, e);
    if table == GraduatesTable {
      MergeCoveredGraduate(ix, next, e, data, now);
    } else {
      var m := Merge(e, data, now);
      MergedKey(e, data, now, "bi");
      MergedKey(e, data, now, "email");
      MergedKey(e, data, now, "citizenId");
      MergedKey(e, data, now, "status");
      MergedKey(e, data, now, "province");
    }
  }

  /** A merged record's index key is the caller's, or the old record's when the caller does not have the property. */
  lemma MergedKey(e: Record, data: Record, now: int, f: string)
    requires f != "id" && f != "updatedAt"
    ensures KeyOf(Merge(e, data, now), f) == if f in data.fields || f in data.cleared then KeyOf(data, f) else KeyOf(e, f)
  {
  }

  lemma MergeCoveredGraduate(ix: Indexes, next: Indexes, e: Record, data: Record, now: int)
    requires e.id == data.id
    requires RecordCovered(next, GraduatesTable, e)
    requires IndexRecord(ix, GraduatesTable, data).Some? ==> RecordCovered(next, GraduatesTable, data)
    requires IndexRecord(ix, GraduatesTable, data).None? ==> next == ix
    requires Grows(ix, next)
    ensures RecordCovered(next, GraduatesTable, Merge(e, data, now))
  {
    var m := Merge(e, data, now);
    if "competencies" in data.fields || "competencies" in data.cleared {
      assert Field(m, "competencies") == Field(data, "competencies");
      assert Competencies(m) == Competencies(data);
      IndexRecordFails(ix, GraduatesTable, data);
    } else {
      assert Field(m, "competencies") == Field(e, "competencies");
      assert Competencies(m) == Competencies(e);
    }
  }

  /** The index state `save` leaves: updated, or untouched when indexing throws. */
  function IndexesAfterSave(ix: Indexes, table: string, saved: Record): Indexes
  {
    match IndexRecord(ix, table, saved)
    case Some(next) => next
    case None => ix
  }

  /** `save` keeps every stored record covered: the index only grows, and the
      record it writes is indexed under the keys it now holds. */
  lemma {:induction false} SaveKeepsCovered(tables: Tables, ix: Indexes, table: string, data: Record, now: int)
    requires Covers(tables, ix)
    ensures
      var rs := TableOf(tables, table);
      Covers(tables[table := Upsert(rs, data, now)], IndexesAfterSave(ix, table, SavedRecord(rs, data, now)))
  {
    var rs := TableOf(tables, table);
    var tables' := tables[table := Upsert(rs, data, now)];
    var saved := SavedRecord(rs, data, now);
    IndexRecordStamp(ix, table, data, now);
    assert IndexRecord(ix, table, saved) == IndexRecord(ix, table, data);
    var next := IndexesAfterSave(ix, table, saved);
    if IndexRecord(ix, table, data).Some? {
      IndexRecordStep(ix, table, data);
    }
    assert Grows(ix, next);
    SaveKeepsTableCovered(tables, ix, next, table, data, now, CitizensTable);
    SaveKeepsTableCovered(tables, ix, next, table, data, now, RegistrationsTable);
    SaveKeepsTableCovered(tables, ix, next, table, data, now, CentersTable);
    SaveKeepsTableCovered(tables, ix, next, table, data, now, GraduatesTable);
  }

  /** Helper: `SaveKeepsCovered` for one indexed table `t`. */
  lemma {:induction false} SaveKeepsTableCovered(tables: Tables, ix: Indexes, next: Indexes, table: string,
                                                 data: Record, now: int, t: string)
    requires TableCovered(tables, ix, t) && Grows(ix, next)
    requires IndexRecord(ix, table, data).Some? ==> RecordCovered(next, table, data)
    requires IndexRecord(ix, table, data).None? ==> next == ix
    ensures TableCovered(tables[table := Upsert(TableOf(tables, table), data, now)], next, t)
  {
    var rs := TableOf(tables, table);
    var tables' := tables[table := Upsert(rs, data, now)];
    forall r | r in TableOf(tables', t) ensures RecordCovered(next, t, r) {
      if t != table {
        assert r in TableOf(tables, t);
        CoveredGrows(ix, next, t, r);
      } else {
        UpsertMembers(rs, data, now, r);
        if r in rs {
          CoveredGrows(ix, next, t, r);
        } else if r == Stamp(data, now) {
          StampCovered(ix, next, t, data, now);
        } else {
          var e :| e in rs && e.id == data.id && r == Merge(e, data, now);
          MergeCovered(ix, next, t, e, data, now);
        }
      }
    }
  }

  /** Helper: the appended record is covered wherever the caller's data is. */
  lemma StampCovered(ix: Indexes, next: Indexes, table: string, data: Record, now: int)
    requires IndexRecord(ix, table, data).Some? ==> RecordCovered(next, table, data)
    ensures RecordCovered(next, table, Stamp(data, now))
  {
    var r := Stamp(data, now);
    IndexRecordFails(ix, table, data);
    assert Field(r, "competencies") == Field(data, "competencies");
    assert Competencies(r) == Competencies(data);
    assert KeyOf(r, "bi") == KeyOf(data, "bi") && KeyOf(r, "email") == KeyOf(data, "email");
    assert KeyOf(r, "citizenId") == KeyOf(data, "citizenId") && KeyOf(r, "status") == KeyOf(data, "status");
    assert KeyOf(r, "province") == KeyOf(data, "province");
  }

  /** `delete` does not look at the indexes, and removing records cannot uncover any that stay. */
  lemma DeleteKeepsCovered(tables: Tables, ix: Indexes, table: string, id: Option<Value>)
    requires Covers(tables, ix)
    ensures Covers(tables[table := Filter(TableOf(tables, table), IdIsNot(id))], ix)
  {
  }

  /** `delete` removes exactly the records with the id, keeps the rest in
      order, is idempotent, and leaves a table without the id unchanged. */
  lemma DeleteRemovesId(rs: seq<Record>, id: Option<Value>)
    ensures forall r :: r in Filter(rs, IdIsNot(id)) <==> r in rs && !StrictEquals(Some(Str(r.id)), id)
    ensures Filter(Filter(rs, IdIsNot(id)), IdIsNot(id)) == Filter(rs, IdIsNot(id))
    ensures (forall i :: 0 <= i < |rs| ==> !StrictEquals(Some(Str(rs[i].id)), id)) ==> Filter(rs, IdIsNot(id)) == rs
  {
    FilterIdempotent(rs, IdIsNot(id));
    if forall i :: 0 <= i < |rs| ==> !StrictEquals(Some(Str(rs[i].id)), id) {
      FilterKeepsAll(rs, IdIsNot(id));
    }
  }

  // ---------------------------------------------------------------------------
  // Rebuilding

  /** `records.forEach(r => this.update...Indexes(r))` from the state `ix`; the
      flag is false when a record throws, and the state is the one reached
      before that record. */
  function IndexAll(ix: Indexes, table: string, rs: seq<Record>): (Indexes, bool)
    decreases |rs|
  {
    if rs == [] then (ix, true)
    else
      var prev := IndexAll(ix, table, rs[..|rs| - 1]);
      if !prev.1 then prev
      else match IndexRecord(prev.0, table, rs[|rs| - 1])
        case None => (prev.0, false)
        case Some(next) => (next, true)
  }

  /** The rebuilt indexes, and whether every record could be indexed. */
  type Rebuild = (Indexes, bool)

  /** `rebuildIndexes`: clear, then citizens, registrations, centers and graduates in turn. */
  function Rebuilt(tables: Tables): (p: Rebuild)
    ensures AllDistinct(p.0)
  {
    var a := IndexAll(NoIndexes, CitizensTable, TableOf(tables, CitizensTable)).0;
    var b := IndexAll(a, RegistrationsTable, TableOf(tables, RegistrationsTable)).0;
    var c := IndexAll(b, CentersTable, TableOf(tables, CentersTable)).0;
    IndexAllGrows(NoIndexes, CitizensTable, TableOf(tables, CitizensTable));
    IndexAllGrows(a, RegistrationsTable, TableOf(tables, RegistrationsTable));
    IndexAllGrows(b, CentersTable, TableOf(tables, CentersTable));
    IndexAllGrows(c, GraduatesTable, TableOf(tables, GraduatesTable));
    IndexAll(c, GraduatesTable, TableOf(tables, GraduatesTable))
  }

  /** A fold of index updates only adds and keeps lists duplicate-free; when it
      runs to the end, every record it walked is covered. */
  lemma {:induction false} IndexAllGrows(ix: Indexes, table: string, rs: seq<Record>)
    ensures Grows(ix, IndexAll(ix, table, rs).0)
    ensures AllDistinct(ix) ==> AllDistinct(IndexAll(ix, table, rs).0)
    ensures IndexAll(ix, table, rs).1 ==>
      forall i :: 0 <= i < |rs| ==> RecordCovered(IndexAll(ix, table, rs).0, table, rs[i])
    ensures IndexAll(ix, table, rs).1 <==> forall i :: 0 <= i < |rs| ==> IndexRecord(ix, table, rs[i]).Some?
    decreases |rs|
  {
    if rs != [] {
      var init, last := rs[..|rs| - 1], rs[|rs| - 1];
      IndexAllGrows(ix, table, init);
      var prev := IndexAll(ix, table, init);
      IndexRecordFails(ix, table, last);
      IndexRecordFails(prev.0, table, last);
      if prev.1 {
        match IndexRecord(prev.0, table, last)
        case None =>
        case Some(next) =>
          IndexRecordStep(prev.0, table, last);
          forall i | 0 <= i < |rs| ensures RecordCovered(next, table, rs[i]) {
            if i < |rs| - 1 {
              assert rs[i] == init[i];
              CoveredGrows(prev.0, next, table, rs[i]);
            }
          }
          forall i | 0 <= i < |rs| ensures IndexRecord(ix, table, rs[i]).Some? {
            if i < |rs| - 1 {
              assert rs[i] == init[i];
            }
            IndexRecordFails(ix, table, rs[i]);
          }
      } else {
        var i :| 0 <= i < |init| && IndexRecord(ix, table, init[i]).None?;
        assert rs[i] == init[i];
      }
    }
  }

  /** Helper: one update whose record is covered in `target` stays within `target`. */
  lemma StepWithin(prev: Indexes, target: Indexes, table: string, r: Record)
    requires ListsWithin(prev, target) && RecordCovered(target, table, r)
    requires IndexRecord(prev, table, r).Some?
    ensures ListsWithin(IndexRecord(prev, table, r).value, target)
  {
    if table == GraduatesTable {
      var g := IndexRecord(prev, table, r).value.graduatesByCompetency;
      var comps := Competencies(r);
      forall k, x | Listed(g, k, x) ensures Listed(target.graduatesByCompetency, k, x) {
        if !Listed(prev.graduatesByCompetency, k, x) {
          var i :| 0 <= i < |comps| && AreaOf(comps[i]) == Some(k);
          assert Listed(target.graduatesByCompetency, AreaOf(comps[i]).value, r.id);
        }
      }
    }
  }

  lemma {:induction false} IndexAllWithin(ix: Indexes, target: Indexes, table: string, rs: seq<Record>)
    requires ListsWithin(ix, target)
    requires forall i :: 0 <= i < |rs| ==> RecordCovered(target, table, rs[i])
    ensures ListsWithin(IndexAll(ix, table, rs).0, target)
    decreases |rs|
  {
    if rs != [] {
      var init := rs[..|rs| - 1];
      assert forall i :: 0 <= i < |init| ==> init[i] == rs[i];
      IndexAllWithin(ix, target, table, init);
      var prev := IndexAll(ix, table, init);
      if prev.1 && IndexRecord(prev.0, table, rs[|rs| - 1]).Some? {
        StepWithin(prev.0, target, table, rs[|rs| - 1]);
      }
    }
  }

  /** The rebuild runs to the end exactly when every stored graduate's competencies can be walked. */
  lemma RebuildSucceeds(tables: Tables)
    ensures Rebuilt(tables).1 <==>
      forall i :: 0 <= i < |TableOf(tables, GraduatesTable)| ==> GraduateIndexable(TableOf(tables, GraduatesTable)[i])
  {
    var a := IndexAll(NoIndexes, CitizensTable, TableOf(tables, CitizensTable)).0;
    var b := IndexAll(a, RegistrationsTable, TableOf(tables, RegistrationsTable)).0;
    var c := IndexAll(b, CentersTable, TableOf(tables, CentersTable)).0;
    var gs := TableOf(tables, GraduatesTable);
    IndexAllGrows(c, GraduatesTable, gs);
    forall i | 0 <= i < |gs| ensures IndexRecord(c, GraduatesTable, gs[i]).Some? <==> GraduateIndexable(gs[i]) {
      IndexRecordFails(c, GraduatesTable, gs[i]);
    }
  }

  /** A completed rebuild accounts for every stored record and holds no duplicate ids. */
  lemma RebuildCovers(tables: Tables)
    ensures AllDistinct(Rebuilt(tables).0)
    ensures Rebuilt(tables).1 ==> Covers(tables, Rebuilt(tables).0)
  {
    var cs, rs, ns, gs := TableOf(tables, CitizensTable), TableOf(tables, RegistrationsTable),
                          TableOf(tables, CentersTable), TableOf(tables, GraduatesTable);
    var a := IndexAll(NoIndexes, CitizensTable, cs);
    var b := IndexAll(a.0, RegistrationsTable, rs);
    var c := IndexAll(b.0, CentersTable, ns);
    var d := IndexAll(c.0, GraduatesTable, gs);
    IndexAllGrows(NoIndexes, CitizensTable, cs);
    IndexAllGrows(a.0, RegistrationsTable, rs);
    IndexAllGrows(b.0, CentersTable, ns);
    IndexAllGrows(c.0, GraduatesTable, gs);
    assert a.1 by {
      forall i | 0 <= i < |cs| ensures IndexRecord(NoIndexes, CitizensTable, cs[i]).Some? {
        IndexRecordFails(NoIndexes, CitizensTable, cs[i]);
      }
    }
    assert b.1 by {
      forall i | 0 <= i < |rs| ensures IndexRecord(a.0, RegistrationsTable, rs[i]).Some? {
        IndexRecordFails(a.0, RegistrationsTable, rs[i]);
      }
    }
    assert c.1 by {
      forall i | 0 <= i < |ns| ensures IndexRecord(b.0, CentersTable, ns[i]).Some? {
        IndexRecordFails(b.0, CentersTable, ns[i]);
      }
    }
    if d.1 {
      forall r | r in cs ensures RecordCovered(d.0, CitizensTable, r) {
        CoveredGrows(a.0, b.0, CitizensTable, r);
        CoveredGrows(b.0, c.0, CitizensTable, r);
        CoveredGrows(c.0, d.0, CitizensTable, r);
      }
      forall r | r in rs ensures RecordCovered(d.0, RegistrationsTable, r) {
        CoveredGrows(b.0, c.0, RegistrationsTable, r);
        CoveredGrows(c.0, d.0, RegistrationsTable, r);
      }
      forall r | r in ns ensures RecordCovered(d.0, CentersTable, r) {
        CoveredGrows(c.0, d.0, CentersTable, r);
      }
    }
  }

  /** Incremental maintenance only adds, so whatever a rebuild would list, an
      index that covers the stored records already lists. */
  lemma RebuiltWithinCovering(tables: Tables, ix: Indexes)
    requires Covers(tables, ix)
    ensures ListsWithin(Rebuilt(tables).0, ix)
  {
    var cs, rs, ns, gs := TableOf(tables, CitizensTable), TableOf(tables, RegistrationsTable),
                          TableOf(tables, CentersTable), TableOf(tables, GraduatesTable);
    var a := IndexAll(NoIndexes, CitizensTable, cs).0;
    var b := IndexAll(a, RegistrationsTable, rs).0;
    var c := IndexAll(b, CentersTable, ns).0;
    IndexAllWithin(NoIndexes, ix, CitizensTable, cs);
    IndexAllWithin(a, ix, RegistrationsTable, rs);
    IndexAllWithin(b, ix, CentersTable, ns);
    IndexAllWithin(c, ix, GraduatesTable, gs);
  }

  /** The containment can be strict: a registration saved as pending and then
      re-saved as approved stays listed as pending, which a rebuild would not list. */
  lemma StaleStatusSurvives()
    ensures
      var pending := Record("r1", map["citizenId" := Str("c1"), "status" := Str("pending")], {});
      var approved := Record("r1", map["citizenId" := Str("c1"), "status" := Str("approved")], {});
      var ix := IndexRegistration(IndexRegistration(NoIndexes, pending), approved);
      var tables := map[RegistrationsTable := [approved]];
      && Covers(tables, ix)
      && Listed(ix.registrationsByStatus, "pending", "r1")
      && !Listed(Rebuilt(tables).0.registrationsByStatus, "pending", "r1")
  {
    var approved := Record("r1", map["citizenId" := Str("c1"), "status" := Str("approved")], {});
    var tables := map[RegistrationsTable := [approved]];
    assert KeyOf(approved, "status") == "approved";
    RebuiltIsOneRegistration(tables, approved);
  }

  /** Helper: a store holding one registration rebuilds to that registration's entries alone. */
  lemma RebuiltIsOneRegistration(tables: Tables, m: Record)
    requires tables == map[RegistrationsTable := [m]]
    ensures Rebuilt(tables).0.registrationsByStatus == map[KeyOf(m, "status") := [m.id]]
  {
    assert TableOf(tables, CitizensTable) == [];
    assert TableOf(tables, CentersTable) == [];
    assert TableOf(tables, GraduatesTable) == [];
    assert IndexAll(NoIndexes, CitizensTable, []) == (NoIndexes, true);
    assert [m][..0] == [];
    var b := IndexRegistration(NoIndexes, m);
    assert IndexAll(NoIndexes, RegistrationsTable, [m]) == (b, true);
    assert IndexAll(b, CentersTable, []) == (b, true);
    assert IndexAll(b, GraduatesTable, []) == (b, true);
    assert Rebuilt(tables) == (b, true);
    var noIds: seq<string> := [];
    assert noIds + [m.id] == [m.id];
    assert b.registrationsByStatus == map[KeyOf(m, "status") := [m.id]];
  }

  // ---------------------------------------------------------------------------
  // Snapshots

  /** `exportData`: the twelve tables, each as `load` reads it. */
  function Snapshot(tables: Tables): (m: Tables)
    ensures forall t :: t in TableNames ==> t in m && m[t] == TableOf(tables, t)
    ensures forall t :: t in m ==> t in TableNames
  {
    map t | t in TableNames :: TableOf(tables, t)
  }

  /** Importing an export writes every table back as it was. */
  lemma ImportOfExport(tables: Tables)
    ensures forall t :: TableOf(tables + Snapshot(tables), t) == TableOf(tables, t)
    ensures Rebuilt(tables + Snapshot(tables)) == Rebuilt(tables)
  {
    var t' := tables + Snapshot(tables);
    assert forall t :: TableOf(t', t) == TableOf(tables, t);
  }

  /** A notification as `markNotificationRead` changes it before saving it. */
  function MarkedRead(n: Record, now: int): (r: Record)
    ensures r.id == n.id
    ensures Field(r, "read") == Some(Bool(true)) && Field(r, "readAt") == Some(Num(now))
    ensures forall f :: f != "read" && f != "readAt" ==> Field(r, f) == Field(n, f)
  {
    n.(fields := n.fields["read" := Bool(true)]["readAt" := Num(now)])
  }

  /** Saving the marked notification changes its own slot only, and that slot reads as read. */
  lemma MarkReadChangesOneSlot(rs: seq<Record>, i: int, now: int)
    requires 0 <= i < |rs|
    requires forall k :: 0 <= k < i ==> rs[k].id != rs[i].id
    ensures var r := Upsert(rs, MarkedRead(rs[i], now), now);
      && |r| == |rs|
      && Field(r[i], "read") == Some(Bool(true))
      && r[i].id == rs[i].id
      && (forall f :: f != "read" && f != "readAt" && f != "updatedAt" ==> Field(r[i], f) == Field(rs[i], f))
      && forall k :: 0 <= k < |rs| && k != i ==> r[k] == rs[k]
  {
    UpsertAtFirst(rs, MarkedRead(rs[i], now), now, i);
  }

  // ---------------------------------------------------------------------------
  // Activities

  /** `(a, b) => new Date(b.timestamp) - new Date(a.timestamp)` is negative: `a`
      is newer. A timestamp that is not a time gives `NaN`, which compares as equal. */
  function NewerFirst(): (Record, Record) -> bool
  {
    (a: Record, b: Record) =>
      var ta, tb := TimeValue(Field(a, "timestamp")), TimeValue(Field(b, "timestamp"));
      ta.Some? && tb.Some? && tb.value < ta.value
  }

  ghost predicate AllTimed(rs: seq<Record>)
  {
    forall i :: 0 <= i < |rs| ==> TimeValue(Field(rs[i], "timestamp")).Some?
  }

  /** Helper: newest-first is a consistent comparator among records that all carry a time. */
  lemma NewerFirstConsistent(rs: seq<Record>)
    requires AllTimed(rs)
    ensures StrictWeakOrderOn((set r | r in rs), NewerFirst())
    ensures Within(rs, (set r | r in rs))
  {
    var dom := (set r | r in rs);
    forall x | x in dom ensures TimeValue(Field(x, "timestamp")).Some? {
      var i :| 0 <= i < |rs| && rs[i] == x;
    }
  }

  /** The newest `limit` entries of `rs`, newest first. */
  function Newest(rs: seq<Record>, limit: int): (r: seq<Record>)
    ensures 0 <= limit ==> |r| == if limit < |rs| then limit else |rs|
    ensures multiset(r) <= multiset(rs)
    ensures AllTimed(rs) ==> SortedBy(r, NewerFirst())
    ensures AllTimed(rs) ==> forall x, y :: x in multiset(r) && y in multiset(rs) - multiset(r) ==> !NewerFirst()(y, x)
  {
    var sorted := SortBy(rs, NewerFirst());
    SliceFromStart(sorted, limit);
    PrefixOf(sorted, ClampIndex(limit, |sorted|), NewerFirst());
    TimedSortsNewestFirst(rs);
    SortedPrefixFirst(sorted, ClampIndex(limit, |sorted|), NewerFirst());
    Slice(sorted, 0, limit)
  }

  /** Helper: records that all carry a time sort newest first. */
  lemma TimedSortsNewestFirst(rs: seq<Record>)
    ensures AllTimed(rs) ==> SortedBy(SortBy(rs, NewerFirst()), NewerFirst())
  {
    if AllTimed(rs) {
      NewerFirstConsistent(rs);
      SortBySorted(rs, NewerFirst(), (set r | r in rs));
    }
  }

  /** Helper: a subsequence of timed records is timed. */
  lemma FilterKeepsTimed(rs: seq<Record>, p: Record -> bool)
    ensures AllTimed(rs) ==> AllTimed(Filter(rs, p))
  {
    if AllTimed(rs) {
      var f := Filter(rs, p);
      forall i | 0 <= i < |f| ensures TimeValue(Field(f[i], "timestamp")).Some? {
        assert f[i] in rs;
        var j :| 0 <= j < |rs| && rs[j] == f[i];
      }
    }
  }

  // ---------------------------------------------------------------------------
  // The store

  /** `save` throws a `TypeError` when a graduate's competencies cannot be walked. */
  datatype StoreError = CompetenciesNotIterable

  /** `MAPTSSDatabase`, with the browser's key-value store held as its tables and index values. */
  class Database {
    var tables: Tables
    var indexes: Indexes

    /** A store with nothing in it. */
    constructor ()
      ensures tables == map[] && indexes == NoIndexes
      ensures Consistent()
    {
      tables := map[];
      indexes := NoIndexes;
    }

    /** The indexes account for every stored record and list no id twice. */
    ghost predicate Consistent()
      reads this
    {
      Covers(tables, indexes) && AllDistinct(indexes)
    }

    function Load(table: string): (rs: seq<Record>)
      reads this
      ensures table !in tables ==> rs == []
      ensures table in tables ==> rs == tables[table]
    {
      TableOf(tables, table)
    }

    /** `save`: upsert by id, write the table back, then index the caller's record. */
    method Save(table: string, data: Record, now: int) returns (result: Result<Record, StoreError>)
      modifies this
      ensures tables == old(tables)[table := Upsert(old(Load(table)), data, now)]
      ensures var saved := SavedRecord(old(Load(table)), data, now);
        && indexes == IndexesAfterSave(old(indexes), table, saved)
        && result == (if IndexRecord(old(indexes), table, saved).Some? then Ok(saved) else Err(CompetenciesNotIterable))
      ensures Grows(old(indexes), indexes)
      ensures old(Consistent()) ==> Consistent()
    {
      ghost var tables0, indexes0 := tables, indexes;
      var existing := Load(table);
      var i := FindIndex(existing, HasId(data.id));
      var saved;
      if i >= 0 {
        existing := existing[i := Merge(existing[i], data, now)];
        saved := data;
      } else {
        saved := Stamp(data, now);
        existing := existing + [saved];
      }
      tables := tables[table := existing];
      var indexed := UpdateIndexes(table, saved);
      result := if indexed then Ok(saved) else Err(CompetenciesNotIterable);
      if Covers(tables0, indexes0) {
        SaveKeepsCovered(tables0, indexes0, table, data, now);
      }
    }

    /** `updateIndexes`: the indexes of `table` take in `r`; they are left as
        they were when indexing throws. */
    method UpdateIndexes(table: string, r: Record) returns (ok: bool)
      modifies this`indexes
      ensures ok == IndexRecord(old(indexes), table, r).Some?
      ensures indexes == IndexesAfterSave(old(indexes), table, r)
      ensures Grows(old(indexes), indexes)
      ensures AllDistinct(old(indexes)) ==> AllDistinct(indexes)
    {
      var next := IndexRecord(indexes, table, r);
      ok := next.Some?;
      if ok {
        IndexRecordStep(indexes, table, r);
        indexes := next.value;
      }
    }

    /** `findById`: the first record whose id is `id`. */
    function FindById(table: string, id: Option<Value>): (r: Option<Record>)
      reads this
      ensures r.None? <==> forall i :: 0 <= i < |Load(table)| ==> !StrictEquals(Some(Str(Load(table)[i].id)), id)
      ensures r.Some? ==>
        exists i :: 0 <= i < |Load(table)| && Load(table)[i] == r.value
          && StrictEquals(Some(Str(r.value.id)), id)
          && forall k :: 0 <= k < i ==> !StrictEquals(Some(Str(Load(table)[k].id)), id)
    {
      var i := FindIndex(Load(table), IdIs(id));
      if i < 0 then None else Some(Load(table)[i])
    }

    /** `findByField`: the records whose property `field` is `value`, in stored order. */
    function FindByField(table: string, field: string, value: Option<Value>): (rs: seq<Record>)
      reads this
      ensures forall r :: r in rs <==> r in Load(table) && StrictEquals(Field(r, field), value)
      ensures |rs| <= |Load(table)|
    {
      Filter(Load(table), FieldIs(field, value))
    }

    /** `findWhere`: the records satisfying `p`, in stored order. */
    function FindWhere(table: string, p: Record -> bool): (rs: seq<Record>)
      reads this
      ensures forall r :: r in rs <==> r in Load(table) && p(r)
    {
      Filter(Load(table), p)
    }

    /** `delete`: keep the records with another id; the indexes are not touched. */
    method Delete(table: string, id: Option<Value>) returns (deleted: bool)
      modifies this
      ensures tables == old(tables)[table := Filter(old(Load(table)), IdIsNot(id))]
      ensures indexes == old(indexes)
      ensures deleted
      ensures old(Consistent()) ==> Consistent()
    {
      var filtered := Filter(Load(table), IdIsNot(id));
      if Covers(tables, indexes) {
        DeleteKeepsCovered(tables, indexes, table, id);
      }
      tables := tables[table := filtered];
      deleted := true;
    }

    /** `getCitizenByBI`: the first citizen whose `bi` is `bi`. */
    function GetCitizenByBI(bi: Option<Value>): (r: Option<Record>)
      reads this
      ensures r.None? <==> forall i :: 0 <= i < |Load(CitizensTable)| ==> !StrictEquals(Field(Load(CitizensTable)[i], "bi"), bi)
      ensures r.Some? ==>
        exists i :: 0 <= i < |Load(CitizensTable)| && Load(CitizensTable)[i] == r.value
          && StrictEquals(Field(r.value, "bi"), bi)
          && forall k :: 0 <= k < i ==> !StrictEquals(Field(Load(CitizensTable)[k], "bi"), bi)
    {
      var found := FindByField(CitizensTable, "bi", bi);
      FilterHead(Load(CitizensTable), FieldIs("bi", bi));
      if found == [] then None else Some(found[0])
    }

    function GetRegistrationsByStatus(status: Option<Value>): (rs: seq<Record>)
      reads this
      ensures forall r :: r in rs <==> r in Load(RegistrationsTable) && StrictEquals(Field(r, "status"), status)
    {
      FindByField(RegistrationsTable, "status", status)
    }

    /** `getCertifiedGraduates`: the graduates whose `verified` is `true` itself, not merely truthy. */
    function GetCertifiedGraduates(): (rs: seq<Record>)
      reads this
      ensures forall r :: r in rs <==> r in Load(GraduatesTable) && Field(r, "verified") == Some(Bool(true))
    {
      FindWhere(GraduatesTable, (r: Record) => StrictEquals(Field(r, "verified"), Some(Bool(true))))
    }

    function GetVerificationCount(employerId: Option<Value>): (n: nat)
      reads this
      ensures n == Count(Load(VerificationsTable), FieldIs("empregadorId", employerId))
      ensures n <= |Load(VerificationsTable)|
    {
      |FindByField(VerificationsTable, "empregadorId", employerId)|
    }

    /** `getRecentActivities`: at most `limit` activities, newest first. */
    function GetRecentActivities(limit: int): (rs: seq<Record>)
      reads this
      ensures 0 <= limit ==> |rs| == if limit < |Load(ActivitiesTable)| then limit else |Load(ActivitiesTable)|
      ensures multiset(rs) <= multiset(Load(ActivitiesTable))
      ensures AllTimed(Load(ActivitiesTable)) ==> SortedBy(rs, NewerFirst())
      ensures AllTimed(Load(ActivitiesTable)) ==>
        forall x, y :: x in multiset(rs) && y in multiset(Load(ActivitiesTable)) - multiset(rs) ==> !NewerFirst()(y, x)
    {
      Newest(Load(ActivitiesTable), limit)
    }

    /** `getActivitiesByUser`: at most `limit` of the user's activities, newest first. */
    function GetActivitiesByUser(userId: Option<Value>, limit: int): (rs: seq<Record>)
      reads this
      ensures var mine := FindByField(ActivitiesTable, "userId", userId);
        && (0 <= limit ==> |rs| == if limit < |mine| then limit else |mine|)
        && multiset(rs) <= multiset(mine)
        && (AllTimed(Load(ActivitiesTable)) ==> SortedBy(rs, NewerFirst()))
        && (AllTimed(Load(ActivitiesTable)) ==>
              forall x, y :: x in multiset(rs) && y in multiset(mine) - multiset(rs) ==> !NewerFirst()(y, x))
      ensures forall r :: r in rs ==> r in Load(ActivitiesTable) && StrictEquals(Field(r, "userId"), userId)
    {
      var mine := FindByField(ActivitiesTable, "userId", userId);
      var r := Newest(mine, limit);
      assert forall x :: x in r ==> x in multiset(mine);
      FilterKeepsTimed(Load(ActivitiesTable), FieldIs("userId", userId));
      r
    }

    /** `markNotificationRead`: `None` for an unknown id; otherwise the notification is marked read and saved. */
    method MarkNotificationRead(id: Option<Value>, now: int) returns (r: Option<Record>)
      modifies this
      ensures old(FindById(NotificationsTable, id)).None? ==>
        r.None? && tables == old(tables) && indexes == old(indexes)
      ensures old(FindById(NotificationsTable, id)).Some? ==>
        var marked := MarkedRead(old(FindById(NotificationsTable, id)).value, now);
        && r == Some(marked)
        && tables == old(tables)[NotificationsTable := Upsert(old(Load(NotificationsTable)), marked, now)]
        && indexes == old(indexes)
      ensures old(Consistent()) ==> Consistent()
    {
      var found := FindById(NotificationsTable, id);
      if found.None? {
        return None;
      }
      var marked := MarkedRead(found.value, now);
      assert FindIndex(Load(NotificationsTable), HasId(marked.id)) >= 0 by {
        var i :| 0 <= i < |Load(NotificationsTable)| && Load(NotificationsTable)[i] == found.value;
        assert HasId(marked.id)(Load(NotificationsTable)[i]);
      }
      ghost var before := Load(NotificationsTable);
      ghost var ix := indexes;
      var saved := Save(NotificationsTable, marked, now);
      assert SavedRecord(before, marked, now) == marked;
      IndexRecordUnindexed(ix, NotificationsTable, marked);
      r := Some(marked);
    }

    function ExportData(): (m: Tables)
      reads this
      ensures forall t :: t in TableNames ==> t in m && m[t] == Load(t)
      ensures forall t :: t in m ==> t in TableNames
    {
      Snapshot(tables)
    }

    /** `clearIndexes`: every index key removed. */
    method ClearIndexes()
      modifies this`indexes
      ensures indexes == NoIndexes
    {
      indexes := NoIndexes;
    }

    /** `records.forEach(r => this.update...Indexes(r))`, stopping where a record throws. */
    method IndexEach(table: string, rs: seq<Record>) returns (ok: bool)
      modifies this`indexes
      ensures (indexes, ok) == IndexAll(old(indexes), table, rs)
    {
      var i := 0;
      while i < |rs|
        invariant 0 <= i <= |rs|
        invariant (indexes, true) == IndexAll(old(indexes), table, rs[..i])
      {
        var next := IndexRecord(indexes, table, rs[i]);
        if next.None? {
          IndexAllStops(old(indexes), table, rs, i);
          return false;
        }
        IndexAllContinues(old(indexes), table, rs, i);
        indexes := next.value;
        i := i + 1;
      }
      assert rs[..i] == rs;
      ok := true;
    }

    /** `rebuildIndexes`. */
    method RebuildIndexes() returns (ok: bool)
      modifies this`indexes
      ensures (indexes, ok) == Rebuilt(tables)
      ensures AllDistinct(indexes)
      ensures ok ==> Consistent()
    {
      ClearIndexes();
      var done := IndexEach(CitizensTable, Load(CitizensTable));
      done := IndexEach(RegistrationsTable, Load(RegistrationsTable));
      done := IndexEach(CentersTable, Load(CentersTable));
      ok := IndexEach(GraduatesTable, Load(GraduatesTable));
      RebuildCovers(tables);
    }

    /** `importData`: each supplied table written as given, then the indexes rebuilt. */
    method ImportData(data: Tables) returns (ok: bool)
      modifies this
      ensures tables == old(tables) + data
      ensures (indexes, ok) == Rebuilt(tables)
      ensures ok ==> Consistent()
    {
      tables := tables + data;
      ok := RebuildIndexes();
    }

    /** `clearAllData`: the twelve tables and every index removed. */
    method ClearAllData()
      modifies this
      ensures tables == map t | t in old(tables) && t !in TableNames :: old(tables)[t]
      ensures indexes == NoIndexes
      ensures Consistent()
    {
      tables := map t | t in tables && t !in TableNames :: tables[t];
      ClearIndexes();
    }
  }

  /** Helper: a fold that meets a throwing record reports failure from there on. */
  /** A record that indexes without throwing extends the fold by one step. */
  lemma IndexAllContinues(ix: Indexes, table: string, rs: seq<Record>, i: int)
    requires 0 <= i < |rs|
    requires IndexAll(ix, table, rs[..i]).1
    requires IndexRecord(IndexAll(ix, table, rs[..i]).0, table, rs[i]).Some?
    ensures IndexAll(ix, table, rs[..i + 1]) == (IndexRecord(IndexAll(ix, table, rs[..i]).0, table, rs[i]).value, true)
  {
    assert rs[..i + 1][..i] == rs[..i];
  }

  lemma {:induction false} IndexAllStops(ix: Indexes, table: string, rs: seq<Record>, i: int)
    requires 0 <= i < |rs|
    requires IndexAll(ix, table, rs[..i]).1
    requires IndexRecord(IndexAll(ix, table, rs[..i]).0, table, rs[i]).None?
    ensures IndexAll(ix, table, rs) == (IndexAll(ix, table, rs[..i]).0, false)
    decreases |rs|
  {
    if i < |rs| - 1 {
      var init := rs[..|rs| - 1];
      assert init[..i] == rs[..i] && init[i] == rs[i];
      IndexAllStops(ix, table, init, i);
    } else {
      assert rs[..|rs| - 1] == rs[..i];
    }
  }
}
