/**
 Exporting a table with a checksum, and the round trip: what importing an
 export in replace mode does to the table it came from.
 */
module TableExport {
  import opened Common
  import opened JsonValue
  import opened Ordering
  import opened Schema
  import opened DataStore
  import opened TableImport

  datatype Export = Export(metadata: Metadata, table: TableDetail, rows: seq<RowResponse>)

  function RowKeys(s: Store, key: TableKey): set<Key>
    requires key in s.tables
  {
    set r | r in s.rows && s.rows[r].app == key.app && s.rows[r].tableId == s.tables[key].id ::
      Key(s.rows[r].createdAt, r)
  }

  function ResponseOf(id: string, row: StoredRow): RowResponse {
    RowResponse(id, row.owner, Obj(row.data), row.createdAt, row.updatedAt)
  }

  function ResponseFor(s: Store, id: string): RowResponse {
    if id in s.rows then ResponseOf(id, s.rows[id]) else RowResponse(id, None, Null, "", "")
  }

  /** The rows of the table, oldest first. */
  ghost function ExportRows(s: Store, key: TableKey): seq<RowResponse>
    requires key in s.tables
  {
    var ks := SortAscending(RowKeys(s, key));
    seq(|ks|, i requires 0 <= i < |ks| => ResponseFor(s, ks[i].id))
  }

  /** The export lists every row of the table exactly once, as stored, in order of creation. */
  lemma ExportRowsExact(s: Store, key: TableKey)
    requires key in s.tables
    ensures
      var rows := ExportRows(s, key);
      && (forall i :: 0 <= i < |rows| ==>
            && rows[i].id in s.rows && Key(rows[i].createdAt, rows[i].id) in RowKeys(s, key)
            && rows[i] == ResponseOf(rows[i].id, s.rows[rows[i].id]))
      && (forall k :: k in RowKeys(s, key) ==> exists i :: 0 <= i < |rows| && rows[i].id == k.id)
      && (forall i, j :: 0 <= i < j < |rows| ==>
            && Before(Key(rows[i].createdAt, rows[i].id), Key(rows[j].createdAt, rows[j].id))
            && rows[i].id != rows[j].id)
  {
    var ks, rows := SortAscending(RowKeys(s, key)), ExportRows(s, key);
    SortAscendingSorts(RowKeys(s, key));
    forall i | 0 <= i < |ks| ensures ks[i].id in s.rows && ks[i] == Key(s.rows[ks[i].id].createdAt, ks[i].id) {
      assert ks[i] in Elements(ks);
    }
    assert forall i :: 0 <= i < |ks| ==> ks[i] == Key(rows[i].createdAt, rows[i].id);
    forall k | k in RowKeys(s, key) ensures exists i :: 0 <= i < |rows| && rows[i].id == k.id {
      assert k in Elements(ks);
      var i :| 0 <= i < |ks| && ks[i] == k;
      assert rows[i].id == k.id;
    }
    forall i, j | 0 <= i < j < |rows| ensures rows[i].id != rows[j].id {
      BeforeIrreflexive(ks[i]);
      assert Before(ks[i], ks[j]);
    }
  }

  /** The export handler; `None` stands for its error answers. */
  ghost function ExportTable(env: Env, s: Store, claims: Claims, name: string): Option<Export> {
    var key := KeyOf(claims, name);
    if !claims.isAdmin || key !in s.tables then None
    else
      var rows := ExportRows(s, key);
      var detail := DetailOf(key, s.tables[key]);
      Some(Export(Metadata(EXPORT_VERSION, |rows|, env.checksum(detail, rows)), detail, rows))
  }

  /** Administrators can export any table there is; the export names its version, its length and its checksum. */
  lemma ExportAnswers(env: Env, s: Store, claims: Claims, name: string)
    ensures
      ExportTable(env, s, claims, name).Some? <==>
      claims.isAdmin && TableKey(claims.app, TableNameOf(name)) in s.tables
    ensures
      ExportTable(env, s, claims, name).Some? ==>
        var e, t := ExportTable(env, s, claims, name).value, s.tables[TableKey(claims.app, TableNameOf(name))];
        && e.metadata.exportVersion == "peanut.table-export.v1" && e.metadata.rowCount == |e.rows|
        && e.metadata.checksum == env.checksum(e.table, e.rows)
        && e.table.name == TableNameOf(name) && e.table.displayName == t.displayName
        && e.table.schema == t.schema && e.table.policy == t.policy
        && e.table.createdBy == t.createdBy && e.table.createdAt == t.createdAt
  {
  }

  /** The exported rows are the stored rows of the table, each once, oldest first with ties by id. */
  lemma ExportedRowsOldestFirst(env: Env, s: Store, claims: Claims, name: string)
    requires ExportTable(env, s, claims, name).Some?
    ensures
      var rows, tableId :=
        ExportTable(env, s, claims, name).value.rows, s.tables[TableKey(claims.app, TableNameOf(name))].id;
      && (forall i :: 0 <= i < |rows| ==>
            && rows[i].id in s.rows && s.rows[rows[i].id].tableId == tableId && s.rows[rows[i].id].app == claims.app
            && rows[i].owner == s.rows[rows[i].id].owner && rows[i].data == Obj(s.rows[rows[i].id].data)
            && rows[i].createdAt == s.rows[rows[i].id].createdAt && rows[i].updatedAt == s.rows[rows[i].id].updatedAt)
      && (forall r :: r in s.rows && s.rows[r].tableId == tableId && s.rows[r].app == claims.app ==>
            exists i :: 0 <= i < |rows| && rows[i].id == r)
      && (forall i, j :: 0 <= i < j < |rows| ==>
            || Less(rows[i].createdAt, rows[j].createdAt)
            || (rows[i].createdAt == rows[j].createdAt && Less(rows[i].id, rows[j].id)))
  {
    var key := KeyOf(claims, name);
    ExportRowsExact(s, key);
    var rows := ExportRows(s, key);
    forall r | r in s.rows && s.rows[r].tableId == s.tables[key].id && s.rows[r].app == claims.app
      ensures exists i :: 0 <= i < |rows| && rows[i].id == r
    {
      assert Key(s.rows[r].createdAt, r) in RowKeys(s, key);
    }
    forall i, j | 0 <= i < j < |rows|
      ensures
        || Less(rows[i].createdAt, rows[j].createdAt)
        || (rows[i].createdAt == rows[j].createdAt && Less(rows[i].id, rows[j].id))
    {
      assert Before(Key(rows[i].createdAt, rows[i].id), Key(rows[j].createdAt, rows[j].id));
    }
  }

  // --- The round trip --------------------------------------------------------------------

  function AsImportRow(row: RowResponse): ImportRow {
    ImportRow(Some(row.id), row.owner, row.data, Some(row.createdAt), Some(row.updatedAt))
  }

  /** The export sent back in replace mode with checksum verification, with or without its table definition. */
  function ReplaceWith(e: Export, restoreTable: Option<bool>): ImportRequest {
    ImportRequest(
      Some("replace"), None, restoreTable, Some(e.metadata), Some(true),
      Some(RestoreSpec(e.table.name, e.table.displayName, e.table.schema, e.table.policy,
                       Some(e.table.createdBy), Some(e.table.createdAt))),
      seq(|e.rows|, i requires 0 <= i < |e.rows| => AsImportRow(e.rows[i])))
  }

  lemma ChecksumOfExportPasses(env: Env, s: Store, claims: Claims, name: string, restoreTable: Option<bool>)
    requires ExportTable(env, s, claims, name).Some?
    ensures
      ChecksumPasses(env, KeyOf(claims, name), s.tables[KeyOf(claims, name)],
                     ReplaceWith(ExportTable(env, s, claims, name).value, restoreTable))
  {
    var e := ExportTable(env, s, claims, name).value;
    var req := ReplaceWith(e, restoreTable);
    assert forall i :: 0 <= i < |req.rows| ==> HasExportFields(req.rows[i]) && AsResponse(req.rows[i]) == e.rows[i];
    assert Responses(req.rows) == e.rows;
  }

  /** An import owner is kept or cleared, never invented. */
  predicate OwnersAccepted(s: Store, key: TableKey)
    requires key in s.tables
  {
    forall r :: r in s.rows && s.rows[r].tableId == s.tables[key].id ==>
                  NormalizeImportOwner(s.tables[key].policy, s.rows[r].owner).Some?
  }

  /** What the store invariant says of a row of the table. */
  ghost predicate GoodRow(env: Env, s: Store, key: TableKey, row: StoredRow)
    requires key in s.tables
  {
    && row.app == key.app
    && Conforms(env.rfc3339, s.tables[key].schema, row.data)
    && (row.owner.Some? ==> row.owner.value in s.users)
  }

  ghost predicate GoodTable(env: Env, s: Store, key: TableKey) {
    key in s.tables &&
    forall r :: r in s.rows && s.rows[r].tableId == s.tables[key].id ==> GoodRow(env, s, key, s.rows[r])
  }

  lemma InvGivesGoodTable(env: Env, s: Store, key: TableKey)
    requires Inv(env.rfc3339, s) && key in s.tables
    ensures GoodTable(env, s, key)
  {
    forall r | r in s.rows && s.rows[r].tableId == s.tables[key].id ensures GoodRow(env, s, key, s.rows[r]) {
      assert RowOk(env.rfc3339, s, s.rows[r]);
    }
  }

  /** The exported definition is a valid restore spec and restores the definition it came from. */
  lemma ExportedDefinition(env: Env, s: Store, key: TableKey, e: Export, restoreTable: Option<bool>)
    requires Inv(env.rfc3339, s) && key in s.tables && e.table == DetailOf(key, s.tables[key])
    ensures
      var req := ReplaceWith(e, restoreTable);
      && RestoreSpecValid(env.rfc3339, key, s.tables[key], req.table.value, 0)
      && Restored(s.tables[key], req.table.value) == s.tables[key]
      && Effective(s.tables[key], req) == s.tables[key]
  {
    assert TableOk(env.rfc3339, key, s.tables[key]);
    NameIsNormal(key.name);
  }

  lemma ExportedRowPasses(env: Env, s: Store, key: TableKey, i: nat)
    requires GoodTable(env, s, key) && i < |ExportRows(s, key)|
    ensures
      var row := ExportRows(s, key)[i];
      && row.id in s.rows && s.rows[row.id].tableId == s.tables[key].id && row == ResponseOf(row.id, s.rows[row.id])
      && (RowPasses(env.rfc3339, s.tables[key], AsImportRow(row)) <==>
          NormalizeImportOwner(s.tables[key].policy, s.rows[row.id].owner).Some?)
  {
    ExportRowsExact(s, key);
    assert GoodRow(env, s, key, s.rows[ExportRows(s, key)[i].id]);
  }

  lemma EveryRowExported(env: Env, s: Store, key: TableKey, r: string)
    requires GoodTable(env, s, key) && r in s.rows && s.rows[r].tableId == s.tables[key].id
    ensures exists i :: 0 <= i < |ExportRows(s, key)| && ExportRows(s, key)[i].id == r
  {
    assert GoodRow(env, s, key, s.rows[r]);
    assert Key(s.rows[r].createdAt, r) in RowKeys(s, key);
    ExportRowsExact(s, key);
  }

  lemma ExportedRowsPass(env: Env, s: Store, key: TableKey)
    requires GoodTable(env, s, key)
    ensures
      OwnersAccepted(s, key) <==>
      forall i :: 0 <= i < |ExportRows(s, key)| ==>
        RowPasses(env.rfc3339, s.tables[key], AsImportRow(ExportRows(s, key)[i]))
  {
    var rows := ExportRows(s, key);
    forall i | 0 <= i < |rows|
      ensures rows[i].id in s.rows && s.rows[rows[i].id].tableId == s.tables[key].id
      ensures RowPasses(env.rfc3339, s.tables[key], AsImportRow(rows[i])) <==>
              NormalizeImportOwner(s.tables[key].policy, s.rows[rows[i].id].owner).Some?
    {
      ExportedRowPasses(env, s, key, i);
    }
    forall r | r in s.rows && s.rows[r].tableId == s.tables[key].id
      ensures exists i :: 0 <= i < |rows| && rows[i].id == r
    {
      EveryRowExported(env, s, key, r);
    }
  }

  lemma RequestRowsPass(env: Env, s: Store, key: TableKey, e: Export, restoreTable: Option<bool>)
    requires GoodTable(env, s, key) && e.rows == ExportRows(s, key)
    ensures
      OwnersAccepted(s, key) <==>
      forall i :: 0 <= i < |ReplaceWith(e, restoreTable).rows| ==>
        RowPasses(env.rfc3339, s.tables[key], ReplaceWith(e, restoreTable).rows[i])
  {
    ExportedRowsPass(env, s, key);
    var rows := ReplaceWith(e, restoreTable).rows;
    assert |rows| == |e.rows|;
    forall i | 0 <= i < |rows| ensures rows[i] == AsImportRow(e.rows[i]) {}
  }

  /** The export of a consistent table passes every check, unless an owner does not suit the policy. */
  lemma ExportPassesChecks(env: Env, s: Store, claims: Claims, name: string, restoreTable: Option<bool>)
    requires Inv(env.rfc3339, s) && ExportTable(env, s, claims, name).Some?
    ensures
      ChecksPass(env, s, KeyOf(claims, name), ReplaceWith(ExportTable(env, s, claims, name).value, restoreTable))
      <==> OwnersAccepted(s, KeyOf(claims, name))
  {
    var key := KeyOf(claims, name);
    var e := ExportTable(env, s, claims, name).value;
    ChecksumOfExportPasses(env, s, claims, name, restoreTable);
    ExportedDefinition(env, s, key, e, restoreTable);
    InvGivesGoodTable(env, s, key);
    RequestRowsPass(env, s, key, e, restoreTable);
  }

  /** What the round trip makes of one stored row. */
  function Reimported(env: Env, t: Table, row: StoredRow, now: string): StoredRow {
    row.(owner := NormalizeImportOwner(t.policy, row.owner).GetOr(None),
         data := WithDefaults(t.schema, row.data), createdAt := now, updatedAt := now)
  }

  function AllReimported(env: Env, s: Store, key: TableKey, now: string): map<string, StoredRow>
    requires key in s.tables
  {
    map r | r in s.rows && s.rows[r].tableId == s.tables[key].id :: Reimported(env, s.tables[key], s.rows[r], now)
  }

  /** The store after the round trip: every row of the table re-imported, everything else untouched. */
  function RoundTripped(env: Env, s: Store, key: TableKey, now: string): Store
    requires key in s.tables
  {
    s.(rows := s.rows + AllReimported(env, s, key, now))
  }

  /** Clearing the table and restoring its own definition leaves just the other rows. */
  lemma RoundTripBase(env: Env, s: Store, claims: Claims, name: string, restoreTable: Option<bool>)
    requires Inv(env.rfc3339, s) && ExportTable(env, s, claims, name).Some? && OwnersAccepted(s, KeyOf(claims, name))
    ensures
      var req := ReplaceWith(ExportTable(env, s, claims, name).value, restoreTable);
      ReadyStore(env, s, KeyOf(claims, name), req) == Some(Cleared(s, KeyOf(claims, name)))
  {
    var key := KeyOf(claims, name);
    var e := ExportTable(env, s, claims, name).value;
    var req := ReplaceWith(e, restoreTable);
    ExportPassesChecks(env, s, claims, name, restoreTable);
    ExportedDefinition(env, s, key, e, restoreTable);
    if Restores(req) {
      RestoreAfterClear(env, s, key, req);
      RestoreSame(env, Cleared(s, key), key, req.table.value);
    }
  }

  lemma RestoreSame(env: Env, s: Store, key: TableKey, spec: RestoreSpec)
    requires key in s.tables && Restored(s.tables[key], spec) == s.tables[key]
    requires RestoreDefinition(env.rfc3339, s, key, spec).Some?
    ensures RestoreDefinition(env.rfc3339, s, key, spec).value == s
  {
    assert s.tables[key := s.tables[key]] == s.tables;
  }

  lemma ReimportedIsPrepared(env: Env, s: Store, key: TableKey, r: string, now: string)
    requires GoodTable(env, s, key) && OwnersAccepted(s, key)
    requires r in s.rows && s.rows[r].tableId == s.tables[key].id
    ensures
      var row := AsImportRow(ResponseOf(r, s.rows[r]));
      && RowPasses(env.rfc3339, s.tables[key], row)
      && Prepared(env.rfc3339, key.app, s.tables[key], row, now) == Reimported(env, s.tables[key], s.rows[r], now)
    ensures
      var owner := Reimported(env, s.tables[key], s.rows[r], now).owner;
      owner.Some? ==> owner.value in s.users
  {
    assert GoodRow(env, s, key, s.rows[r]);
  }

  /** Every exported row can be inserted again: its id is free and its owner known. */
  lemma NothingConflicts(s: Store, after: Store, key: TableKey, ids: seq<string>, made: seq<StoredRow>, n: nat)
    requires key in s.tables && Inserted(Cleared(s, key), after, ids, made, n) && n < |ids|
    requires Distinct(ids) && ids[n] !in Cleared(s, key).rows
    requires made[n].owner.Some? ==> made[n].owner.value in s.users
    ensures CanInsert(after, ids[n], made[n].owner)
  {
  }

  /** The ids of an export, in order. */
  ghost function ExportIds(s: Store, key: TableKey): seq<string>
    requires key in s.tables
  {
    var rows := ExportRows(s, key);
    seq(|rows|, i requires 0 <= i < |rows| => rows[i].id)
  }

  lemma ExportIdsExact(env: Env, s: Store, key: TableKey)
    requires GoodTable(env, s, key)
    ensures Distinct(ExportIds(s, key))
    ensures forall i :: 0 <= i < |ExportIds(s, key)| ==>
              && ExportIds(s, key)[i] in s.rows && s.rows[ExportIds(s, key)[i]].tableId == s.tables[key].id
              && ExportIds(s, key)[i] !in Cleared(s, key).rows
              && ExportRows(s, key)[i] == ResponseOf(ExportIds(s, key)[i], s.rows[ExportIds(s, key)[i]])
    ensures forall r :: r in s.rows && s.rows[r].tableId == s.tables[key].id ==> r in ExportIds(s, key)
  {
    var ids, rows := ExportIds(s, key), ExportRows(s, key);
    ExportRowsExact(s, key);
    forall i | 0 <= i < |ids|
      ensures ids[i] in s.rows && s.rows[ids[i]].tableId == s.tables[key].id && ids[i] !in Cleared(s, key).rows
      ensures rows[i] == ResponseOf(ids[i], s.rows[ids[i]])
    {
      ExportedRowPasses(env, s, key, i);
      assert GoodRow(env, s, key, s.rows[ids[i]]);
    }
    forall r | r in s.rows && s.rows[r].tableId == s.tables[key].id ensures r in ids {
      EveryRowExported(env, s, key, r);
      var i :| 0 <= i < |rows| && rows[i].id == r;
      assert ids[i] == r;
    }
  }

  /** Reading off the result of inserting all of them. */
  lemma AllInserted(
    s: Store, after: Store, key: TableKey, ids: seq<string>, made: seq<StoredRow>, want: map<string, StoredRow>)
    requires key in s.tables && Inserted(Cleared(s, key), after, ids, made, |ids|)
    requires forall i :: 0 <= i < |ids| ==> ids[i] in want && made[i] == want[ids[i]]
    requires forall r :: r in want <==> r in s.rows && s.rows[r].tableId == s.tables[key].id
    requires forall r :: r in want ==> r in ids
    ensures after == s.(rows := s.rows + want)
  {
    assert ids[..|ids|] == ids;
    var rows := s.rows + want;
    forall r | r in rows ensures r in after.rows && after.rows[r] == rows[r] {
      if r in want {
        var i :| 0 <= i < |ids| && ids[i] == r;
        assert after.rows[ids[i]] == made[i];
      } else {
        assert r in Cleared(s, key).rows;
      }
    }
    forall r | r in after.rows ensures r in rows {
      assert r in Cleared(s, key).rows || r in ids;
    }
    assert after.rows == rows;
  }

  /** The stored forms of the export's rows are the re-imported rows. */
  lemma ExportMade(env: Env, s: Store, key: TableKey, rows: seq<ImportRow>, now: string, i: nat)
    requires GoodTable(env, s, key) && OwnersAccepted(s, key) && i < |rows| == |ExportRows(s, key)|
    requires rows[i] == AsImportRow(ExportRows(s, key)[i])
    ensures
      var id := ExportIds(s, key)[i];
      && id in AllReimported(env, s, key, now) && IdFor(env, rows, i) == id
      && RowPasses(env.rfc3339, s.tables[key], rows[i])
      && AllReimported(env, s, key, now)[id] == Prepared(env.rfc3339, key.app, s.tables[key], rows[i], now)
      && var owner := AllReimported(env, s, key, now)[id].owner;
      owner.Some? ==> owner.value in s.users
  {
    ExportIdsExact(env, s, key);
    ReimportedIsPrepared(env, s, key, ExportIds(s, key)[i], now);
  }

  /** The insert loop over an export whose owners suit the policy. */
  lemma RoundTripLoop(env: Env, s: Store, key: TableKey, rows: seq<ImportRow>, now: string)
    requires GoodTable(env, s, key) && OwnersAccepted(s, key) && |rows| == |ExportRows(s, key)|
    requires forall i :: 0 <= i < |rows| ==> rows[i] == AsImportRow(ExportRows(s, key)[i])
    ensures InsertFrom(env, Cleared(s, key), key, rows, 0, now) == (RoundTripped(env, s, key, now), Created, |rows|)
  {
    ExportIdsExact(env, s, key);
    var ids, want := ExportIds(s, key), AllReimported(env, s, key, now);
    forall i | 0 <= i < |rows|
      ensures ids[i] in want && IdFor(env, rows, i) == ids[i] && RowPasses(env.rfc3339, s.tables[key], rows[i])
      ensures want[ids[i]] == Prepared(env.rfc3339, key.app, s.tables[key], rows[i], now)
      ensures want[ids[i]].owner.Some? ==> want[ids[i]].owner.value in s.users
    {
      ExportMade(env, s, key, rows, now, i);
    }
    assert Ids(env, rows) == ids;
    var made: seq<StoredRow> := seq(|ids|, i requires 0 <= i < |ids| => want[ids[i]]);
    InsertAll(env, s, key, rows, ids, made, now);
    AllInserted(s, InsertFrom(env, Cleared(s, key), key, rows, 0, now).0, key, ids, made, want);
  }

  lemma InsertAll(
    env: Env, s: Store, key: TableKey, rows: seq<ImportRow>, ids: seq<string>, made: seq<StoredRow>, now: string)
    requires key in s.tables && ids == Ids(env, rows) && |made| == |rows| && Distinct(ids)
    requires
      forall i :: 0 <= i < |rows| ==>
        && RowPasses(env.rfc3339, s.tables[key], rows[i])
        && made[i] == Prepared(env.rfc3339, key.app, s.tables[key], rows[i], now)
        && ids[i] !in Cleared(s, key).rows
        && (made[i].owner.Some? ==> made[i].owner.value in s.users)
    ensures
      var (after, response, n) := InsertFrom(env, Cleared(s, key), key, rows, 0, now);
      Inserted(Cleared(s, key), after, ids, made, |ids|) && response == Created && n == |rows|
  {
    var base := Cleared(s, key);
    InsertLoop(env, base, base, key, rows, made, 0, now);
    var (after, _, n) := InsertFrom(env, base, key, rows, 0, now);
    if n < |ids| {
      NothingConflicts(s, after, key, ids, made, n);
      assert false;
    }
  }

  /** An export whose owners suit the policy is imported completely. */
  lemma RoundTripSucceeds(env: Env, s: Store, claims: Claims, name: string, restoreTable: Option<bool>, now: string)
    requires Inv(env.rfc3339, s) && ExportTable(env, s, claims, name).Some? && OwnersAccepted(s, KeyOf(claims, name))
    ensures
      var e := ExportTable(env, s, claims, name).value;
      Import(env, s, claims, name, ReplaceWith(e, restoreTable), now) ==
      (RoundTripped(env, s, KeyOf(claims, name), now), Created, |e.rows|)
  {
    var key := KeyOf(claims, name);
    var req := ReplaceWith(ExportTable(env, s, claims, name).value, restoreTable);
    RoundTripBase(env, s, claims, name, restoreTable);
    ImportRunsLoop(env, s, claims, name, req, now);
    InvGivesGoodTable(env, s, key);
    RoundTripLoop(env, s, key, req.rows, now);
  }

  /** Same ids, owners and data in every table; only the time stamps of the re-imported rows are new. */
  ghost predicate SameContents(s: Store, after: Store) {
    && after.tables == s.tables && after.rows.Keys == s.rows.Keys
    && forall r :: r in s.rows ==>
         && after.rows[r].app == s.rows[r].app && after.rows[r].tableId == s.rows[r].tableId
         && after.rows[r].owner == s.rows[r].owner && after.rows[r].data == s.rows[r].data
  }

  /** Every row of the table has the fields with defaults and an owner as the current policy wants it. */
  predicate Reproducible(s: Store, key: TableKey)
    requires key in s.tables
  {
    forall r :: r in s.rows && s.rows[r].tableId == s.tables[key].id ==> RowFits(s.tables[key], s.rows[r])
  }

  lemma FittingOwnersAccepted(s: Store, key: TableKey)
    requires key in s.tables && ValidPolicy(s.tables[key].policy)
    ensures Reproducible(s, key) ==> OwnersAccepted(s, key)
  {
    forall r | r in s.rows && s.rows[r].tableId == s.tables[key].id && RowFits(s.tables[key], s.rows[r])
      ensures NormalizeImportOwner(s.tables[key].policy, s.rows[r].owner).Some?
    {
      OwnerKeptIffFits(s.tables[key].policy, s.rows[r].owner);
    }
  }

  lemma ReimportedUnchanged(env: Env, s: Store, key: TableKey, r: string, now: string)
    requires GoodTable(env, s, key) && OwnersAccepted(s, key) && ValidPolicy(s.tables[key].policy)
    requires r in s.rows && s.rows[r].tableId == s.tables[key].id
    ensures
      var row := Reimported(env, s.tables[key], s.rows[r], now);
      row.data == s.rows[r].data && row.owner == s.rows[r].owner <==> RowFits(s.tables[key], s.rows[r])
  {
    assert GoodRow(env, s, key, s.rows[r]);
    NormalMeansDefaultsPresent(env.rfc3339, s.tables[key].schema, s.rows[r].data);
    OwnerKeptIffFits(s.tables[key].policy, s.rows[r].owner);
  }

  lemma RoundTrippedSame(env: Env, s: Store, key: TableKey, now: string)
    requires GoodTable(env, s, key) && OwnersAccepted(s, key) && ValidPolicy(s.tables[key].policy)
    ensures SameContents(s, RoundTripped(env, s, key, now)) <==> Reproducible(s, key)
  {
    var after := RoundTripped(env, s, key, now);
    assert after.rows.Keys == s.rows.Keys;
    forall r | r in s.rows && s.rows[r].tableId == s.tables[key].id
      ensures
        after.rows[r].data == s.rows[r].data && after.rows[r].owner == s.rows[r].owner <==>
        RowFits(s.tables[key], s.rows[r])
    {
      ReimportedUnchanged(env, s, key, r, now);
      assert after.rows[r] == Reimported(env, s.tables[key], s.rows[r], now);
    }
  }

  /**
   Importing an export back reproduces ids, owners and data if and only if no row
   lacks a field that has a default and all owners fit the current policy.
   */
  lemma RoundTripExact(env: Env, s: Store, claims: Claims, name: string, restoreTable: Option<bool>, now: string)
    requires Inv(env.rfc3339, s) && ExportTable(env, s, claims, name).Some?
    ensures
      var req := ReplaceWith(ExportTable(env, s, claims, name).value, restoreTable);
      var (after, response, n) := Import(env, s, claims, name, req, now);
      response == Created && SameContents(s, after) <==> Reproducible(s, KeyOf(claims, name))
  {
    var key := KeyOf(claims, name);
    ExportPassesChecks(env, s, claims, name, restoreTable);
    assert TableOk(env.rfc3339, key, s.tables[key]);
    FittingOwnersAccepted(s, key);
    if OwnersAccepted(s, key) {
      RoundTripSucceeds(env, s, claims, name, restoreTable, now);
      InvGivesGoodTable(env, s, key);
      RoundTrippedSame(env, s, key, now);
    }
  }
}
