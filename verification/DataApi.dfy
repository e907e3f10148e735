/** The data layer as it runs: the handlers over a mutable store, and all runs of them. */
module DataApi {
  import opened Common
  import opened Text
  import opened JsonValue
  import opened Schema
  import opened SchemaEvolution
  import opened DataStore
  import opened TableImport

  datatype Step =
    | AddUser(user: string)
    | DeleteUserStep(claims: Claims, user: string, found: bool, elsewhere: bool)
    | CreateTableStep(
        claims: Claims, name: string, display: string, schema: Schema, policy: Policy, id: string, now: string)
    | UpdateTableStep(
        claims: Claims, name: string, display': Option<string>, schema': Option<Schema>,
        policy': Option<Policy>)
    | DeleteTableStep(claims: Claims, name: string)
    | CreateRowStep(claims: Claims, name: string, data: Json, quota: bool, id: string, now: string)
    | UpdateRowStep(claims: Claims, name: string, id: string, data: Json, now: string)
    | DeleteRowStep(claims: Claims, name: string, id: string)
    | ImportStep(claims: Claims, name: string, req: ImportRequest, now: string)

  function Apply(env: Env, s: Store, step: Step): Store {
    match step
    case AddUser(user) => s.(users := s.users + {user})
    case DeleteUserStep(claims, user, found, elsewhere) => DeleteUser(s, claims, user, found, elsewhere).0
    case CreateTableStep(claims, name, display, schema, policy, id, now) =>
      CreateTable(env.rfc3339, s, claims, name, display, schema, policy, id, now).0
    case UpdateTableStep(claims, name, display, schema, policy) =>
      UpdateTable(env.rfc3339, s, claims, name, display, schema, policy).0
    case DeleteTableStep(claims, name) => DeleteTable(s, claims, name).0
    case CreateRowStep(claims, name, data, quota, id, now) =>
      CreateRow(env.rfc3339, s, claims, name, data, quota, id, now).0
    case UpdateRowStep(claims, name, id, data, now) => UpdateRow(env.rfc3339, s, claims, name, id, data, now).0
    case DeleteRowStep(claims, name, id) => DeleteRow(s, claims, name, id).0
    case ImportStep(claims, name, req, now) => Import(env, s, claims, name, req, now).0
  }

  function Run(env: Env, steps: seq<Step>): Store {
    if steps == [] then Store(map[], map[], {}, {}) else Apply(env, Run(env, Init(steps)), Last(steps))
  }

  lemma AddUserKeepsInv(rfc3339: string -> bool, s: Store, user: string)
    requires Inv(rfc3339, s)
    ensures Inv(rfc3339, s.(users := s.users + {user}))
  {
    var s' := s.(users := s.users + {user});
    forall r | r in s'.rows ensures RowOk(rfc3339, s', s'.rows[r]) {
      assert RowOk(rfc3339, s, s.rows[r]);
    }
  }

  lemma TableStepKeepsInv(env: Env, s: Store, step: Step)
    requires Inv(env.rfc3339, s)
    requires step.CreateTableStep? || step.UpdateTableStep? || step.DeleteTableStep?
    ensures Inv(env.rfc3339, Apply(env, s, step))
  {
    match step
    case CreateTableStep(claims, name, display, schema, policy, id, now) =>
      CreateTableKeepsInv(env.rfc3339, s, claims, name, display, schema, policy, id, now);
    case UpdateTableStep(claims, name, display, schema, policy) =>
      UpdateTableKeepsInv(env.rfc3339, s, claims, name, display, schema, policy);
    case DeleteTableStep(claims, name) => DeleteTableKeepsInv(env.rfc3339, s, claims, name);
  }

  lemma RowStepKeepsInv(env: Env, s: Store, step: Step)
    requires Inv(env.rfc3339, s)
    requires step.CreateRowStep? || step.UpdateRowStep? || step.DeleteRowStep?
    ensures Inv(env.rfc3339, Apply(env, s, step))
  {
    match step
    case CreateRowStep(claims, name, data, quota, id, now) =>
      CreateRowKeepsInv(env.rfc3339, s, claims, name, data, quota, id, now);
    case UpdateRowStep(claims, name, id, data, now) => UpdateRowKeepsInv(env.rfc3339, s, claims, name, id, data, now);
    case DeleteRowStep(claims, name, id) => DeleteRowKeepsInv(env.rfc3339, s, claims, name, id);
  }

  lemma ApplyKeepsInv(env: Env, s: Store, step: Step)
    requires Inv(env.rfc3339, s)
    ensures Inv(env.rfc3339, Apply(env, s, step))
  {
    match step
    case AddUser(user) => AddUserKeepsInv(env.rfc3339, s, user);
    case DeleteUserStep(claims, user, found, elsewhere) =>
      DeleteUserKeepsInv(env.rfc3339, s, claims, user, found, elsewhere);
    case CreateTableStep(_, _, _, _, _, _, _) => TableStepKeepsInv(env, s, step);
    case UpdateTableStep(_, _, _, _, _) => TableStepKeepsInv(env, s, step);
    case DeleteTableStep(_, _) => TableStepKeepsInv(env, s, step);
    case ImportStep(claims, name, req, now) => ImportKeepsInv(env, s, claims, name, req, now);
    case _ => RowStepKeepsInv(env, s, step);
  }

  lemma {:induction false} RunKeepsInv(env: Env, steps: seq<Step>)
    ensures Inv(env.rfc3339, Run(env, steps))
  {
    if steps != [] {
      RunKeepsInv(env, Init(steps));
      ApplyKeepsInv(env, Run(env, Init(steps)), Last(steps));
    }
  }

  /** In every run, each stored row still normalises under its table's current schema. */
  lemma StoredRowsNormalise(env: Env, steps: seq<Step>, r: string, k: TableKey)
    requires
      var s := Run(env, steps);
      r in s.rows && k in s.tables && s.tables[k].id == s.rows[r].tableId
    ensures
      var s := Run(env, steps);
      Normalize(env.rfc3339, s.tables[k].schema, Obj(s.rows[r].data)).Some? && s.rows[r].app == k.app
  {
    RunKeepsInv(env, steps);
    assert RowOk(env.rfc3339, Run(env, steps), Run(env, steps).rows[r]);
  }

  // --- The handlers ------------------------------------------------------------------------

  /** The patch loop of a row update. */
  method MergePatch(existing: Row, patch: Row) returns (merged: Row)
    ensures merged == existing + patch
  {
    merged := existing;
    var todo := patch.Keys;
    while todo != {}
      invariant todo <= patch.Keys
      invariant forall f :: f in merged <==> f in existing || (f in patch && f !in todo)
      invariant forall f :: f in merged ==>
                  merged[f] == if f in patch && f !in todo then patch[f]
                               else if f in existing then existing[f]
                               else merged[f]
      decreases todo
    {
      var key :| key in todo;
      merged := merged[key := patch[key]];
      todo := todo - {key};
    }
  }

  class DataApi {
    const env: Env
    var tables: map<TableKey, Table>
    var rows: map<string, StoredRow>
    var users: set<string>
    var audited: set<string>

    ghost function Model(): Store
      reads this
    {
      Store(tables, rows, users, audited)
    }

    constructor (env: Env)
      ensures this.env == env && Model() == Run(env, [])
    {
      this.env := env;
      tables, rows, users, audited := map[], map[], {}, {};
    }

    /** The audit entry a handler leaves; it needs its actor to exist. */
    method RecordAudit(claims: Claims)
      modifies `audited
      ensures Model() == Audited(old(Model()), claims)
    {
      if claims.sub in users {
        audited := audited + {claims.sub};
      }
    }

    method ValidateRowsAgainstSchema(tableId: string, schema: Schema) returns (ok: bool)
      ensures ok == RowsPass(env.rfc3339, Model(), tableId, schema)
    {
      var todo := set r | r in rows && rows[r].tableId == tableId;
      while todo != {}
        invariant forall r :: r in todo ==> r in rows && rows[r].tableId == tableId
        invariant forall r :: r in rows && rows[r].tableId == tableId && r !in todo ==>
                    Normalize(env.rfc3339, schema, Obj(rows[r].data)).Some?
        decreases todo
      {
        var r :| r in todo;
        var normal := NormalizeRowData(env.rfc3339, schema, Obj(rows[r].data));
        if normal.None? {
          return false;
        }
        todo := todo - {r};
      }
      ok := true;
    }

    /** The checks of a table update, in their order. */
    method CheckUpdate(existing: Table, updated: Table) returns (ok: bool)
      ensures ok == UpdateAccepted(env.rfc3339, Model(), existing, updated)
    {
      if updated.displayName == "" || !ValidSchema(env.rfc3339, updated.schema) || !ValidPolicy(updated.policy) {
        return false;
      }
      var rowCount := |RowsOf(Store(tables, rows, users, audited), existing.id)|;
      ok := ValidateSchemaEvolution(existing.schema, updated.schema, rowCount);
      if ok {
        ok := ValidateRowsAgainstSchema(existing.id, updated.schema);
      }
    }

    method UpdateTableDefinition(
      claims: Claims, name: string, display: Option<string>, schema: Option<Schema>, policy: Option<Policy>)
      returns (response: Response)
      modifies this
      ensures (Model(), response) == UpdateTable(env.rfc3339, old(Model()), claims, name, display, schema, policy)
    {
      if !claims.isAdmin {
        return Forbidden;
      }
      var key := KeyOf(claims, name);
      if key !in tables {
        return NotFound;
      }
      var updated := Updated(tables[key], display, schema, policy);
      var ok := CheckUpdate(tables[key], updated);
      if !ok {
        return BadRequest;
      }
      tables := tables[key := updated];
      RecordAudit(claims);
      response := Okay;
    }

    method CreateTableDefinition(
      claims: Claims, name: string, display: string, schema: Schema, policy: Policy, id: string, now: string)
      returns (response: Response)
      modifies this
      ensures
        (Model(), response) ==
        CreateTable(env.rfc3339, old(Model()), claims, name, display, schema, policy, id, now)
    {
      if !claims.isAdmin {
        return Forbidden;
      }
      var key := KeyOf(claims, name);
      if !ValidTableName(key.name) || Trim(display) == "" || !ValidSchema(env.rfc3339, schema) || !ValidPolicy(policy) {
        return BadRequest;
      }
      if key in tables || (exists k :: k in tables && tables[k].id == id) || claims.sub !in users {
        return Conflict;
      }
      tables := tables[key := Table(id, Trim(display), schema, policy, claims.sub, now)];
      RecordAudit(claims);
      response := Created;
    }

    /** Deleting a table takes its rows with it. */
    method DeleteTableDefinition(claims: Claims, name: string) returns (response: Response)
      modifies this
      ensures (Model(), response) == DeleteTable(old(Model()), claims, name)
    {
      var key := KeyOf(claims, name);
      if !claims.isAdmin {
        return Forbidden;
      }
      if key !in tables {
        return NotFound;
      }
      rows := rows - RowsOf(Store(tables, rows, users, audited), tables[key].id);
      tables := tables - {key};
      RecordAudit(claims);
      response := Okay;
    }

    /** Deleting a user takes the user's tables, and the user's name off all other rows. */
    method DeleteUserAccount(claims: Claims, user: string, found: bool, elsewhere: bool) returns (response: Response)
      modifies this
      ensures (Model(), response) == DeleteUser(old(Model()), claims, user, found, elsewhere)
    {
      if !claims.isAdmin {
        return Forbidden;
      }
      if claims.sub == user {
        return BadRequest;
      }
      if !found || user !in users {
        return NotFound;
      }
      if user in audited || elsewhere {
        return Conflict;
      }
      var s := Store(tables, rows, users, audited);
      rows := map r | r in rows && !FallsWith(s, rows[r], user) :: Disowned(rows[r], user);
      tables := map k | k in tables && tables[k].createdBy != user :: tables[k];
      users := users - {user};
      response := Okay;
    }

    /** The insert statement. */
    method InsertRow(id: string, row: StoredRow) returns (ok: bool)
      modifies `rows
      ensures ok == CanInsert(old(Model()), id, row.owner)
      ensures rows == if ok then old(rows)[id := row] else old(rows)
    {
      ok := id !in rows && (row.owner.Some? ==> row.owner.value in users);
      if ok {
        rows := rows[id := row];
      }
    }

    method CreateRowIn(claims: Claims, name: string, data: Json, quota: bool, id: string, now: string)
      returns (response: Response)
      modifies this
      ensures (Model(), response) == CreateRow(env.rfc3339, old(Model()), claims, name, data, quota, id, now)
    {
      var key := KeyOf(claims, name);
      if key !in tables {
        return NotFound;
      }
      var table := tables[key];
      if !CanWriteTable(claims, table.policy) || !quota {
        return Forbidden;
      }
      var normalized := NormalizeRowData(env.rfc3339, table.schema, data);
      if normalized.None? {
        return BadRequest;
      }
      var owner := OwnerForNewRow(claims, table.policy);
      var ok := InsertRow(id, StoredRow(claims.app, table.id, owner, normalized.value, now, now));
      if !ok {
        return ServerError;
      }
      RecordAudit(claims);
      response := Created;
    }

    method UpdateRowIn(claims: Claims, name: string, id: string, data: Json, now: string) returns (response: Response)
      modifies this
      ensures (Model(), response) == UpdateRow(env.rfc3339, old(Model()), claims, name, id, data, now)
    {
      var key := KeyOf(claims, name);
      if key !in tables {
        return NotFound;
      }
      var table := tables[key];
      if id !in rows || rows[id].tableId != table.id {
        return NotFound;
      }
      var existing := rows[id];
      if !CanAccessRow(claims, table.policy, existing.owner, Update) {
        return Forbidden;
      }
      if !data.Obj? {
        return BadRequest;
      }
      var merged := MergePatch(existing.data, data.fields);
      var normalized := NormalizeRowData(env.rfc3339, table.schema, Obj(merged));
      if normalized.None? {
        return BadRequest;
      }
      rows := rows[id := existing.(data := normalized.value, updatedAt := now)];
      RecordAudit(claims);
      response := Okay;
    }

    method DeleteRowIn(claims: Claims, name: string, id: string) returns (response: Response)
      modifies this
      ensures (Model(), response) == DeleteRow(old(Model()), claims, name, id)
    {
      var key := KeyOf(claims, name);
      if key !in tables {
        return NotFound;
      }
      var table := tables[key];
      if id !in rows || rows[id].tableId != table.id {
        return NotFound;
      }
      if !CanAccessRow(claims, table.policy, rows[id].owner, Delete) {
        return Forbidden;
      }
      rows := rows - {id};
      RecordAudit(claims);
      response := Okay;
    }

    /** The insert loop of an import, with the checks it repeats for every row. */
    method InsertImportRows(
      key: TableKey, import_: seq<ImportRow>, now: string)
      returns (response: Response, imported: nat)
      requires key in tables
      modifies `rows
      ensures (Model(), response, imported) == InsertFrom(env, old(Model()), key, import_, 0, now)
    {
      imported := 0;
      while imported < |import_|
        invariant imported <= |import_|
        invariant
          InsertFrom(env, Model(), key, import_, imported, now) == InsertFrom(env, old(Model()), key, import_, 0, now)
      {
        var row := import_[imported];
        var normalized := NormalizeRowData(env.rfc3339, tables[key].schema, row.data);
        if normalized.None? {
          return BadRequest, imported;
        }
        var owner := NormalizeImportOwner(tables[key].policy, row.owner);
        if owner.None? {
          return BadRequest, imported;
        }
        var rowId := row.id.GetOr(env.newId(imported));
        var ok := InsertRow(rowId, StoredRow(key.app, tables[key].id, owner.value, normalized.value, now, now));
        if !ok {
          return Conflict, imported;
        }
        imported := imported + 1;
      }
      response := Created;
    }

    /** The restore step, which checks the definition again against the rows now stored. */
    method RestoreTableDefinition(key: TableKey, spec: RestoreSpec) returns (ok: bool)
      requires key in tables
      modifies `tables
      ensures ok == RestoreDefinition(env.rfc3339, old(Model()), key, spec).Some?
      ensures Model() == if ok then RestoreDefinition(env.rfc3339, old(Model()), key, spec).value else old(Model())
    {
      var existing := tables[key];
      var rowCount := |RowsOf(Store(tables, rows, users, audited), existing.id)|;
      if !RestoreSpecValid(env.rfc3339, key, existing, spec, rowCount) {
        return false;
      }
      ok := ValidateRowsAgainstSchema(existing.id, spec.schema);
      if ok {
        var restored := existing.(displayName := Trim(spec.displayName), schema := spec.schema, policy := spec.policy);
        tables := tables[key := restored];
      }
    }

    method CheckImportRows(table: Table, import_: seq<ImportRow>) returns (ok: bool)
      ensures ok == forall k :: 0 <= k < |import_| ==> RowPasses(env.rfc3339, table, import_[k])
    {
      for i := 0 to |import_|
        invariant forall k :: 0 <= k < i ==> RowPasses(env.rfc3339, table, import_[k])
      {
        var normalized := NormalizeRowData(env.rfc3339, table.schema, import_[i].data);
        if normalized.None? {
          return false;
        }
        if NormalizeImportOwner(table.policy, import_[i].owner).None? {
          return false;
        }
      }
      ok := true;
    }

    /** Every check before the first write, row by row at the end. */
    method CheckImport(key: TableKey, req: ImportRequest) returns (ok: bool)
      requires key in tables
      ensures ok == ChecksPass(env, Model(), key, req)
    {
      var table := tables[key];
      var mode := req.mode.GetOr("append");
      if mode != "append" && mode != "replace" {
        return false;
      }
      if req.verifyChecksum.GetOr(false) && !ChecksumPasses(env, key, table, req) {
        return false;
      }
      var effective := table;
      if req.restoreTable.GetOr(false) {
        if req.table.None? {
          return false;
        }
        var rowCount := if mode == "replace" then 0 else |RowsOf(Store(tables, rows, users, audited), table.id)|;
        if !RestoreSpecValid(env.rfc3339, key, table, req.table.value, rowCount) {
          return false;
        }
        effective := Restored(table, req.table.value);
      }
      assert effective == Effective(table, req);
      ok := CheckImportRows(effective, req.rows);
    }

    method ImportRows(
      claims: Claims, name: string, req: ImportRequest, now: string)
      returns (response: Response, imported: nat)
      modifies this
      ensures (Model(), response, imported) == Import(env, old(Model()), claims, name, req, now)
    {
      if !claims.isAdmin {
        return Forbidden, 0;
      }
      var key := KeyOf(claims, name);
      if key !in tables {
        return NotFound, 0;
      }
      var ok := CheckImport(key, req);
      if !ok {
        return BadRequest, 0;
      }
      if req.dryRun.GetOr(false) {
        return Okay, 0;
      }
      if Replaces(req) {
        rows := map r | r in rows && !(rows[r].app == key.app && rows[r].tableId == tables[key].id) :: rows[r];
      }
      if Restores(req) {
        if req.table.None? {
          assert false;
        }
        ok := RestoreTableDefinition(key, req.table.value);
        if !ok {
          return BadRequest, 0;
        }
      }
      response, imported := InsertImportRows(key, req.rows, now);
    }
  }
}
