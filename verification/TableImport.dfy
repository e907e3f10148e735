/**
 Importing rows into a table: checks first, then up to three kinds of writes
 (clear, restore the definition, insert row by row).  The function below follows
 the handler branch by branch, including the checks it repeats after it has
 begun to write; the lemmas show that those can no longer fail.
 */
module TableImport {
  import opened Common
  import opened Text
  import opened JsonValue
  import opened Schema
  import opened SchemaEvolution
  import opened DataStore

  const EXPORT_VERSION := "peanut.table-export.v1"

  datatype TableDetail = TableDetail(
    name: string, displayName: string, schema: Schema, policy: Policy, createdBy: string, createdAt: string)

  datatype RowResponse = RowResponse(
    id: string, owner: Option<string>, data: Json, createdAt: string, updatedAt: string)

  datatype Metadata = Metadata(exportVersion: string, rowCount: nat, checksum: string)

  datatype ImportRow = ImportRow(
    id: Option<string>, owner: Option<string>, data: Json, createdAt: Option<string>, updatedAt: Option<string>)

  datatype RestoreSpec = RestoreSpec(
    name: string, displayName: string, schema: Schema, policy: Policy, createdBy: Option<string>,
    createdAt: Option<string>)

  datatype ImportRequest = ImportRequest(
    mode: Option<string>,
    dryRun: Option<bool>,
    restoreTable: Option<bool>,
    metadata: Option<Metadata>,
    verifyChecksum: Option<bool>,
    table: Option<RestoreSpec>,
    rows: seq<ImportRow>)

  /** Timestamp syntax, the checksum of an encoded export, and the generator of row ids. */
  datatype Env = Env(
    rfc3339: string -> bool,
    checksum: (TableDetail, seq<RowResponse>) -> string,
    newId: nat -> string)

  // --- Checks ------------------------------------------------------------------------

  function DetailOf(key: TableKey, t: Table): TableDetail {
    TableDetail(key.name, t.displayName, t.schema, t.policy, t.createdBy, t.createdAt)
  }

  /** The table definition a checksum is taken over. */
  function ResolveChecksumTable(key: TableKey, t: Table, req: ImportRequest): Option<TableDetail> {
    if req.table.None? then Some(DetailOf(key, t))
    else
      var spec := req.table.value;
      if spec.createdBy.None? || spec.createdAt.None? then None
      else
        Some(TableDetail(
               spec.name, spec.displayName, spec.schema, spec.policy, spec.createdBy.value, spec.createdAt.value))
  }

  predicate HasExportFields(row: ImportRow) {
    row.id.Some? && row.createdAt.Some? && row.updatedAt.Some?
  }

  function AsResponse(row: ImportRow): RowResponse
    requires HasExportFields(row)
  {
    RowResponse(row.id.value, row.owner, row.data, row.createdAt.value, row.updatedAt.value)
  }

  /** The rows as the export they came from showed them. */
  function Responses(rows: seq<ImportRow>): seq<RowResponse>
    requires forall i :: 0 <= i < |rows| ==> HasExportFields(rows[i])
  {
    seq(|rows|, i requires 0 <= i < |rows| => AsResponse(rows[i]))
  }

  predicate ChecksumPasses(env: Env, key: TableKey, t: Table, req: ImportRequest) {
    && req.metadata.Some?
    && req.metadata.value.exportVersion == EXPORT_VERSION
    && req.metadata.value.rowCount == |req.rows|
    && ResolveChecksumTable(key, t, req).Some?
    && (forall i :: 0 <= i < |req.rows| ==> HasExportFields(req.rows[i]))
    && env.checksum(ResolveChecksumTable(key, t, req).value, Responses(req.rows)) == req.metadata.value.checksum
  }

  predicate RestoreSpecValid(rfc3339: string -> bool, key: TableKey, t: Table, spec: RestoreSpec, rowCount: nat) {
    && TableNameOf(spec.name) == key.name
    && Trim(spec.displayName) != ""
    && ValidSchema(rfc3339, spec.schema)
    && ValidPolicy(spec.policy)
    && EvolutionAccepted(t.schema, spec.schema, rowCount)
  }

  function Restored(t: Table, spec: RestoreSpec): Table {
    t.(displayName := Trim(spec.displayName), schema := spec.schema, policy := spec.policy)
  }

  predicate Restores(req: ImportRequest) {
    req.restoreTable.GetOr(false)
  }

  predicate Replaces(req: ImportRequest) {
    req.mode == Some("replace")
  }

  predicate RowPasses(rfc3339: string -> bool, t: Table, row: ImportRow) {
    Normalize(rfc3339, t.schema, row.data).Some? && NormalizeImportOwner(t.policy, row.owner).Some?
  }

  /** The row an import stores for a request row. */
  function Prepared(rfc3339: string -> bool, app: string, t: Table, row: ImportRow, now: string): StoredRow
    requires RowPasses(rfc3339, t, row)
  {
    StoredRow(app, t.id, NormalizeImportOwner(t.policy, row.owner).value,
              Normalize(rfc3339, t.schema, row.data).value, now, now)
  }

  /** Everything checked before the first write. */
  predicate ChecksPass(env: Env, s: Store, key: TableKey, req: ImportRequest)
    requires key in s.tables
  {
    var t := s.tables[key];
    && req.mode.GetOr("append") in {"append", "replace"}
    && (req.verifyChecksum.GetOr(false) ==> ChecksumPasses(env, key, t, req))
    && (Restores(req) ==>
          && req.table.Some?
          && RestoreSpecValid(env.rfc3339, key, t, req.table.value, if Replaces(req) then 0 else |RowsOf(s, t.id)|))
    && forall i :: 0 <= i < |req.rows| ==> RowPasses(env.rfc3339, Effective(t, req), req.rows[i])
  }

  /** The table as the rows will find it. */
  function Effective(t: Table, req: ImportRequest): Table {
    if Restores(req) && req.table.Some? then Restored(t, req.table.value) else t
  }

  // --- Writes ------------------------------------------------------------------------

  function Cleared(s: Store, key: TableKey): Store
    requires key in s.tables
  {
    s.(rows := map r | r in s.rows && !(s.rows[r].app == key.app && s.rows[r].tableId == s.tables[key].id) :: s.rows[r])
  }

  /** Restore the definition after checking it again against the rows now stored; `None` is a bad request. */
  function RestoreDefinition(rfc3339: string -> bool, s: Store, key: TableKey, spec: RestoreSpec): Option<Store>
    requires key in s.tables
  {
    var t := s.tables[key];
    if !RestoreSpecValid(rfc3339, key, t, spec, |RowsOf(s, t.id)|) || !RowsPass(rfc3339, s, t.id, spec.schema) then None
    else Some(s.(tables := s.tables[key := Restored(t, spec)]))
  }

  function IdFor(env: Env, rows: seq<ImportRow>, i: nat): string
    requires i < |rows|
  {
    rows[i].id.GetOr(env.newId(i))
  }

  /** The insert loop from row `i` on, with the number of rows inserted. */
  function InsertFrom(
    env: Env, s: Store, key: TableKey, rows: seq<ImportRow>, i: nat, now: string): (Store, Response, nat)
    requires key in s.tables && i <= |rows|
    decreases |rows| - i
  {
    if i == |rows| then (s, Created, i)
    else if !RowPasses(env.rfc3339, s.tables[key], rows[i]) then (s, BadRequest, i)
    else
      var row := Prepared(env.rfc3339, key.app, s.tables[key], rows[i], now);
      if !CanInsert(s, IdFor(env, rows, i), row.owner) then (s, Conflict, i)
      else InsertFrom(env, s.(rows := s.rows[IdFor(env, rows, i) := row]), key, rows, i + 1, now)
  }

  function Import(
    env: Env, s: Store, claims: Claims, name: string, req: ImportRequest, now: string): (Store, Response, nat)
  {
    var key := KeyOf(claims, name);
    if !claims.isAdmin then (s, Forbidden, 0)
    else if key !in s.tables then (s, NotFound, 0)
    else if !ChecksPass(env, s, key, req) then (s, BadRequest, 0)
    else if req.dryRun.GetOr(false) then (s, Okay, 0)
    else
      var base := if Replaces(req) then Cleared(s, key) else s;
      if !Restores(req) then InsertFrom(env, base, key, req.rows, 0, now)
      else if req.table.None? then (base, BadRequest, 0)
      else
        match RestoreDefinition(env.rfc3339, base, key, req.table.value)
        case None => (base, BadRequest, 0)
        case Some(restored) => InsertFrom(env, restored, key, req.rows, 0, now)
  }

  // --- The insert loop ------------------------------------------------------------------

  /** The ids and the stored form of all import rows, in order. */
  function Ids(env: Env, rows: seq<ImportRow>): seq<string> {
    seq(|rows|, i requires 0 <= i < |rows| => IdFor(env, rows, i))
  }

  function Made(rfc3339: string -> bool, app: string, t: Table, rows: seq<ImportRow>, now: string): seq<StoredRow>
    requires forall i :: 0 <= i < |rows| ==> RowPasses(rfc3339, t, rows[i])
  {
    seq(|rows|, i requires 0 <= i < |rows| => Prepared(rfc3339, app, t, rows[i], now))
  }

  /** `after` is `base` with exactly the first `n` of the rows added, under new and distinct ids. */
  ghost predicate Inserted(base: Store, after: Store, ids: seq<string>, made: seq<StoredRow>, n: nat) {
    && n <= |ids| == |made|
    && after.tables == base.tables && after.users == base.users && after.audited == base.audited
    && (forall r :: r in base.rows ==> r in after.rows && after.rows[r] == base.rows[r])
    && (forall r :: r in after.rows ==> r in base.rows || r in ids[..n])
    && (forall i :: 0 <= i < n ==> ids[i] !in base.rows && ids[i] in after.rows && after.rows[ids[i]] == made[i])
    && Distinct(ids[..n])
  }

  lemma InsertedOneMore(base: Store, mid: Store, ids: seq<string>, made: seq<StoredRow>, i: nat)
    requires Inserted(base, mid, ids, made, i) && i < |ids| && ids[i] !in mid.rows
    ensures Inserted(base, mid.(rows := mid.rows[ids[i] := made[i]]), ids, made, i + 1)
  {
    assert ids[..i + 1] == ids[..i] + [ids[i]];
    assert forall j :: 0 <= j < i ==> ids[j] in mid.rows;
    DistinctAppend(ids[..i], [ids[i]]);
  }

  /** With rows that pass, the loop can only be stopped by a row that cannot be inserted. */
  lemma {:induction false} InsertLoop(
    env: Env, base: Store, s: Store, key: TableKey, rows: seq<ImportRow>, made: seq<StoredRow>, i: nat, now: string)
    requires key in base.tables && Inserted(base, s, Ids(env, rows), made, i)
    requires
      forall k :: 0 <= k < |rows| ==>
        RowPasses(env.rfc3339, base.tables[key], rows[k])
        && made[k] == Prepared(env.rfc3339, key.app, base.tables[key], rows[k], now)
    ensures
      var (after, response, n) := InsertFrom(env, s, key, rows, i, now);
      && i <= n <= |rows| && Inserted(base, after, Ids(env, rows), made, n)
      && response == (if n == |rows| then Created else Conflict)
      && (n < |rows| ==> !CanInsert(after, IdFor(env, rows, n), made[n].owner))
    decreases |rows| - i
  {
    if i < |rows| && CanInsert(s, IdFor(env, rows, i), made[i].owner) {
      InsertedOneMore(base, s, Ids(env, rows), made, i);
      InsertLoop(env, base, s.(rows := s.rows[IdFor(env, rows, i) := made[i]]), key, rows, made, i + 1, now);
    }
  }

  /** Old rows stay as they are while new ones are inserted. */
  lemma {:induction false} InsertLoopKeepsRows(
    env: Env, s: Store, key: TableKey, rows: seq<ImportRow>, i: nat, now: string, r: string)
    requires key in s.tables && i <= |rows| && r in s.rows
    ensures
      var after := InsertFrom(env, s, key, rows, i, now).0;
      after.tables == s.tables && r in after.rows && after.rows[r] == s.rows[r]
    decreases |rows| - i
  {
    if i < |rows| && RowPasses(env.rfc3339, s.tables[key], rows[i]) {
      var row := Prepared(env.rfc3339, key.app, s.tables[key], rows[i], now);
      if CanInsert(s, IdFor(env, rows, i), row.owner) {
        InsertLoopKeepsRows(env, s.(rows := s.rows[IdFor(env, rows, i) := row]), key, rows, i + 1, now, r);
      }
    }
  }

  // --- Clearing and restoring --------------------------------------------------------

  /** Rows of a table carry its application, so clearing leaves none behind. */
  lemma ClearedIsEmpty(rfc3339: string -> bool, s: Store, key: TableKey)
    requires Inv(rfc3339, s) && key in s.tables
    ensures RowsOf(Cleared(s, key), s.tables[key].id) == {}
  {
    forall r | r in s.rows && s.rows[r].tableId == s.tables[key].id ensures s.rows[r].app == key.app {
      assert RowOk(rfc3339, s, s.rows[r]);
    }
  }

  lemma ClearedKeepsInv(rfc3339: string -> bool, s: Store, key: TableKey)
    requires Inv(rfc3339, s) && key in s.tables
    ensures Inv(rfc3339, Cleared(s, key))
  {
    forall r | r in Cleared(s, key).rows ensures RowOk(rfc3339, Cleared(s, key), s.rows[r]) {
      assert RowOk(rfc3339, s, s.rows[r]);
    }
  }

  function Base(s: Store, key: TableKey, req: ImportRequest): Store
    requires key in s.tables
  {
    if Replaces(req) then Cleared(s, key) else s
  }

  /** The repeated check can refuse a definition only in append mode, when nothing has been written. */
  lemma RestoreAfterClear(env: Env, s: Store, key: TableKey, req: ImportRequest)
    requires Inv(env.rfc3339, s) && key in s.tables && ChecksPass(env, s, key, req) && Restores(req) && Replaces(req)
    ensures RestoreDefinition(env.rfc3339, Cleared(s, key), key, req.table.value).Some?
  {
    ClearedIsEmpty(env.rfc3339, s, key);
    assert forall r :: r in Cleared(s, key).rows ==> r !in RowsOf(Cleared(s, key), s.tables[key].id);
  }

  // --- The whole import ----------------------------------------------------------------

  /** The store the insert loop starts from, when the import gets that far. */
  function ReadyStore(env: Env, s: Store, key: TableKey, req: ImportRequest): Option<Store>
    requires key in s.tables
  {
    if !ChecksPass(env, s, key, req) || req.dryRun.GetOr(false) then None
    else if !Restores(req) then Some(Base(s, key, req))
    else RestoreDefinition(env.rfc3339, Base(s, key, req), key, req.table.value)
  }

  lemma ReadyRowsPass(env: Env, s: Store, key: TableKey, req: ImportRequest)
    requires key in s.tables && ReadyStore(env, s, key, req).Some?
    ensures
      var base := ReadyStore(env, s, key, req).value;
      && key in base.tables && base.tables[key] == Effective(s.tables[key], req)
      && (forall i :: 0 <= i < |req.rows| ==> RowPasses(env.rfc3339, base.tables[key], req.rows[i]))
  {
  }

  lemma ImportRunsLoop(env: Env, s: Store, claims: Claims, name: string, req: ImportRequest, now: string)
    requires claims.isAdmin && KeyOf(claims, name) in s.tables
    requires ReadyStore(env, s, KeyOf(claims, name), req).Some?
    ensures
      var base := ReadyStore(env, s, KeyOf(claims, name), req).value;
      && KeyOf(claims, name) in base.tables
      && Import(env, s, claims, name, req, now) == InsertFrom(env, base, KeyOf(claims, name), req.rows, 0, now)
  {
  }

  /**
   What an import that starts inserting does: it adds exactly the rows before
   the first one that cannot be inserted, and answers accordingly.
   */
  lemma ImportInserts(env: Env, s: Store, claims: Claims, name: string, req: ImportRequest, now: string)
    requires claims.isAdmin && KeyOf(claims, name) in s.tables
    requires ReadyStore(env, s, KeyOf(claims, name), req).Some?
    ensures
      var key := KeyOf(claims, name);
      var base := ReadyStore(env, s, key, req).value;
      var (after, response, n) := Import(env, s, claims, name, req, now);
      && key in base.tables && base.tables[key] == Effective(s.tables[key], req)
      && (forall i :: 0 <= i < |req.rows| ==> RowPasses(env.rfc3339, base.tables[key], req.rows[i]))
      && var made := Made(env.rfc3339, key.app, base.tables[key], req.rows, now);
      && Inserted(base, after, Ids(env, req.rows), made, n)
      && response == (if n == |req.rows| then Created else Conflict)
      && (n < |req.rows| ==> !CanInsert(after, IdFor(env, req.rows, n), made[n].owner))
  {
    var key := KeyOf(claims, name);
    var base := ReadyStore(env, s, key, req).value;
    ReadyRowsPass(env, s, key, req);
    ImportRunsLoop(env, s, claims, name, req, now);
    InsertLoop(env, base, base, key, req.rows, Made(env.rfc3339, key.app, base.tables[key], req.rows, now), 0, now);
  }

  /** A bad request, whichever branch gives it, leaves rows and definitions exactly as they were. */
  lemma BadRequestChangesNothing(env: Env, s: Store, claims: Claims, name: string, req: ImportRequest, now: string)
    requires Inv(env.rfc3339, s)
    requires Import(env, s, claims, name, req, now).1 == BadRequest
    ensures Import(env, s, claims, name, req, now).0 == s
  {
    var key := KeyOf(claims, name);
    if claims.isAdmin && key in s.tables && ChecksPass(env, s, key, req) && !req.dryRun.GetOr(false) {
      if Restores(req) && Replaces(req) {
        RestoreAfterClear(env, s, key, req);
      }
      if ReadyStore(env, s, key, req).Some? {
        ImportInserts(env, s, claims, name, req, now);
        assert false;
      }
    }
  }

  /** Only a created or conflicting import writes at all. */
  lemma OnlyInsertsWrite(env: Env, s: Store, claims: Claims, name: string, req: ImportRequest, now: string)
    requires Inv(env.rfc3339, s)
    ensures
      var (after, response, n) := Import(env, s, claims, name, req, now);
      && response in {Created, Conflict, Okay, BadRequest, Forbidden, NotFound}
      && (response in {Okay, BadRequest, Forbidden, NotFound} ==> after == s && n == 0)
      && (response in {Created, Conflict} ==>
            claims.isAdmin && KeyOf(claims, name) in s.tables && ReadyStore(env, s, KeyOf(claims, name), req).Some?)
  {
    var key := KeyOf(claims, name);
    if Import(env, s, claims, name, req, now).1 == BadRequest {
      BadRequestChangesNothing(env, s, claims, name, req, now);
    }
    if claims.isAdmin && key in s.tables && ChecksPass(env, s, key, req) && !req.dryRun.GetOr(false) {
      if Restores(req) && Replaces(req) {
        RestoreAfterClear(env, s, key, req);
      }
      if ReadyStore(env, s, key, req).Some? {
        ImportInserts(env, s, claims, name, req, now);
      }
    }
  }

  lemma {:induction false} InsertLoopKeepsInv(
    env: Env, s: Store, key: TableKey, rows: seq<ImportRow>, i: nat, now: string)
    requires Inv(env.rfc3339, s) && key in s.tables && i <= |rows|
    ensures Inv(env.rfc3339, InsertFrom(env, s, key, rows, i, now).0)
    decreases |rows| - i
  {
    if i < |rows| && RowPasses(env.rfc3339, s.tables[key], rows[i]) {
      var row := Prepared(env.rfc3339, key.app, s.tables[key], rows[i], now);
      var id := IdFor(env, rows, i);
      if CanInsert(s, id, row.owner) {
        NormalizeIdempotent(env.rfc3339, s.tables[key].schema, rows[i].data);
        PutRowKeepsInv(env.rfc3339, s, key, id, row);
        InsertLoopKeepsInv(env, s.(rows := s.rows[id := row]), key, rows, i + 1, now);
      }
    }
  }

  lemma RestoreKeepsInv(rfc3339: string -> bool, s: Store, key: TableKey, spec: RestoreSpec)
    requires Inv(rfc3339, s) && key in s.tables && RestoreDefinition(rfc3339, s, key, spec).Some?
    ensures Inv(rfc3339, RestoreDefinition(rfc3339, s, key, spec).value)
  {
    TrimIdempotent(spec.displayName);
    assert TableOk(rfc3339, key, s.tables[key]);
    RedefineKeepsInv(rfc3339, s, key, Restored(s.tables[key], spec));
  }

  lemma BaseKeepsInv(rfc3339: string -> bool, s: Store, key: TableKey, req: ImportRequest)
    requires Inv(rfc3339, s) && key in s.tables
    ensures Inv(rfc3339, Base(s, key, req))
  {
    ClearedKeepsInv(rfc3339, s, key);
  }

  lemma ReadyStoreKeepsInv(env: Env, s: Store, key: TableKey, req: ImportRequest)
    requires Inv(env.rfc3339, s) && key in s.tables && ReadyStore(env, s, key, req).Some?
    ensures Inv(env.rfc3339, ReadyStore(env, s, key, req).value)
  {
    BaseKeepsInv(env.rfc3339, s, key, req);
    if Restores(req) {
      RestoreKeepsInv(env.rfc3339, Base(s, key, req), key, req.table.value);
    }
  }

  lemma ImportKeepsInv(env: Env, s: Store, claims: Claims, name: string, req: ImportRequest, now: string)
    requires Inv(env.rfc3339, s)
    ensures Inv(env.rfc3339, Import(env, s, claims, name, req, now).0)
  {
    var key := KeyOf(claims, name);
    OnlyInsertsWrite(env, s, claims, name, req, now);
    if Import(env, s, claims, name, req, now).1 in {Created, Conflict} {
      ReadyStoreKeepsInv(env, s, key, req);
      ImportRunsLoop(env, s, claims, name, req, now);
      InsertLoopKeepsInv(env, ReadyStore(env, s, key, req).value, key, req.rows, 0, now);
    }
  }
}
