/**
 The tables and rows of the data layer as one store, and the handlers that
 create, change and delete them.  Every handler is one step.
 */
module DataStore {
  import opened Common
  import opened Text
  import opened JsonValue
  import opened Schema
  import opened SchemaEvolution

  /** Tables are unique by application and name; the name never changes. */
  datatype TableKey = TableKey(app: string, name: string)

  datatype Table = Table(
    id: string,
    displayName: string,
    schema: Schema,
    policy: Policy,
    createdBy: string,
    createdAt: string)

  datatype StoredRow = StoredRow(
    app: string,
    tableId: string,
    owner: Option<string>,
    data: Row,
    createdAt: string,
    updatedAt: string)

  /**
   Row ids are unique across all tables; `users` are the ids that owners may
   refer to, `audited` those that the audit log names as actors.
   */
  datatype Store = Store(
    tables: map<TableKey, Table>, rows: map<string, StoredRow>, users: set<string>, audited: set<string>)

  datatype Response = Okay | Created | BadRequest | Forbidden | NotFound | Conflict | ServerError

  function KeyOf(claims: Claims, name: string): TableKey {
    TableKey(claims.app, TableNameOf(name))
  }

  function RowsOf(s: Store, tableId: string): set<string> {
    set r | r in s.rows && s.rows[r].tableId == tableId
  }

  /** The insert statement: the id must be free and the owner, if any, known. */
  predicate CanInsert(s: Store, id: string, owner: Option<string>) {
    id !in s.rows && (owner.Some? ==> owner.value in s.users)
  }

  /** Every accepted change of tables and rows, other than by import, leaves an audit entry of its actor. */
  function Audited(s: Store, claims: Claims): Store {
    if claims.sub in s.users then s.(audited := s.audited + {claims.sub}) else s
  }

  // --- Tables ----------------------------------------------------------------------

  function CreateTable(
    rfc3339: string -> bool, s: Store, claims: Claims, name: string, displayName: string,
    schema: Schema, policy: Policy, id: string, now: string): (Store, Response)
  {
    var key := KeyOf(claims, name);
    if !claims.isAdmin then (s, Forbidden)
    else if !ValidTableName(key.name) || Trim(displayName) == "" then (s, BadRequest)
    else if !ValidSchema(rfc3339, schema) || !ValidPolicy(policy) then (s, BadRequest)
    else if key in s.tables || claims.sub !in s.users then (s, Conflict)
    else if exists k :: k in s.tables && s.tables[k].id == id then (s, Conflict)
    else
      var t := Table(id, Trim(displayName), schema, policy, claims.sub, now);
      (Audited(s.(tables := s.tables[key := t]), claims), Created)
  }

  /** All stored rows of a table pass the given schema. */
  predicate RowsPass(rfc3339: string -> bool, s: Store, tableId: string, schema: Schema) {
    forall r :: r in s.rows && s.rows[r].tableId == tableId ==> Normalize(rfc3339, schema, Obj(s.rows[r].data)).Some?
  }

  /** The definition that an accepted update leaves. */
  function Updated(t: Table, displayName: Option<string>, schema: Option<Schema>, policy: Option<Policy>): Table {
    t.(displayName := Trim(displayName.GetOr(t.displayName)),
       schema := schema.GetOr(t.schema), policy := policy.GetOr(t.policy))
  }

  /** What is checked of a new definition, the stored rows included. */
  predicate UpdateAccepted(rfc3339: string -> bool, s: Store, t: Table, t': Table) {
    && t'.displayName != "" && ValidSchema(rfc3339, t'.schema) && ValidPolicy(t'.policy)
    && EvolutionAccepted(t.schema, t'.schema, |RowsOf(s, t.id)|)
    && RowsPass(rfc3339, s, t.id, t'.schema)
  }

  function UpdateTable(
    rfc3339: string -> bool, s: Store, claims: Claims, name: string,
    displayName: Option<string>, schema: Option<Schema>, policy: Option<Policy>): (Store, Response)
  {
    var key := KeyOf(claims, name);
    if !claims.isAdmin then (s, Forbidden)
    else if key !in s.tables then (s, NotFound)
    else
      var t' := Updated(s.tables[key], displayName, schema, policy);
      if !UpdateAccepted(rfc3339, s, s.tables[key], t') then (s, BadRequest)
      else (Audited(s.(tables := s.tables[key := t']), claims), Okay)
  }

  function DeleteTable(s: Store, claims: Claims, name: string): (Store, Response) {
    var key := KeyOf(claims, name);
    if !claims.isAdmin then (s, Forbidden)
    else if key !in s.tables then (s, NotFound)
    else (Audited(s.(tables := s.tables - {key}, rows := s.rows - RowsOf(s, s.tables[key].id)), claims), Okay)
  }

  // --- Rows ------------------------------------------------------------------------

  function CreateRow(
    rfc3339: string -> bool, s: Store, claims: Claims, name: string, data: Json,
    quota: bool, id: string, now: string): (Store, Response)
  {
    var key := KeyOf(claims, name);
    if key !in s.tables then (s, NotFound)
    else
      var t := s.tables[key];
      if !CanWriteTable(claims, t.policy) || !quota then (s, Forbidden)
      else
        var normal := Normalize(rfc3339, t.schema, data);
        if normal.None? then (s, BadRequest)
        else
          var owner := OwnerForNewRow(claims, t.policy);
          if !CanInsert(s, id, owner) then (s, ServerError)
          else
            var row := StoredRow(claims.app, t.id, owner, normal.value, now, now);
            (Audited(s.(rows := s.rows[id := row]), claims), Created)
  }

  function UpdateRow(
    rfc3339: string -> bool, s: Store, claims: Claims, name: string, id: string, data: Json, now: string)
    : (Store, Response)
  {
    var key := KeyOf(claims, name);
    if key !in s.tables then (s, NotFound)
    else
      var t := s.tables[key];
      if id !in RowsOf(s, t.id) then (s, NotFound)
      else
        var row := s.rows[id];
        if !CanAccessRow(claims, t.policy, row.owner, Update) then (s, Forbidden)
        else if !data.Obj? then (s, BadRequest)
        else
          var normal := Normalize(rfc3339, t.schema, Obj(row.data + data.fields));
          if normal.None? then (s, BadRequest)
          else (Audited(s.(rows := s.rows[id := row.(data := normal.value, updatedAt := now)]), claims), Okay)
  }

  function DeleteRow(s: Store, claims: Claims, name: string, id: string): (Store, Response) {
    var key := KeyOf(claims, name);
    if key !in s.tables then (s, NotFound)
    else
      var t := s.tables[key];
      if id !in RowsOf(s, t.id) then (s, NotFound)
      else if !CanAccessRow(claims, t.policy, s.rows[id].owner, Delete) then (s, Forbidden)
      else (Audited(s.(rows := s.rows - {id}), claims), Okay)
  }

  // --- Users -----------------------------------------------------------------------

  function Disowned(row: StoredRow, user: string): StoredRow {
    if row.owner == Some(user) then row.(owner := None) else row
  }

  /** The row's table goes with its creator. */
  predicate FallsWith(s: Store, row: StoredRow, user: string) {
    exists k :: k in s.tables && s.tables[k].id == row.tableId && s.tables[k].createdBy == user
  }

  /** Foreign keys: tables go with their creator and rows with their table; other rows lose their owner. */
  function WithoutUser(s: Store, user: string): Store {
    Store(map k | k in s.tables && s.tables[k].createdBy != user :: s.tables[k],
          map r | r in s.rows && !FallsWith(s, s.rows[r], user) :: Disowned(s.rows[r], user),
          s.users - {user}, s.audited)
  }

  /**
   `found` says that the user belongs to the administrator's application.  An
   audit entry of the user forbids the deletion, and so does anything outside
   the data layer that still refers to the user (`elsewhere`).
   */
  function DeleteUser(s: Store, claims: Claims, user: string, found: bool, elsewhere: bool): (Store, Response) {
    if !claims.isAdmin then (s, Forbidden)
    else if claims.sub == user then (s, BadRequest)
    else if !found || user !in s.users then (s, NotFound)
    else if user in s.audited || elsewhere then (s, Conflict)
    else (WithoutUser(s, user), Okay)
  }

  // --- What every store satisfies ----------------------------------------------------

  predicate TableOk(rfc3339: string -> bool, key: TableKey, t: Table) {
    && ValidTableName(key.name)
    && t.displayName != "" && Trim(t.displayName) == t.displayName
    && ValidSchema(rfc3339, t.schema)
    && ValidPolicy(t.policy)
  }

  ghost predicate UniqueIds(tables: map<TableKey, Table>) {
    forall j, k :: j in tables && k in tables && tables[j].id == tables[k].id ==> j == k
  }

  /** The row belongs to its table's application and its table's schema accepts it. */
  ghost predicate RowOk(rfc3339: string -> bool, s: Store, row: StoredRow) {
    && (exists k :: k in s.tables && s.tables[k].id == row.tableId)
    && (forall k :: k in s.tables && s.tables[k].id == row.tableId ==>
          k.app == row.app && Conforms(rfc3339, s.tables[k].schema, row.data))
    && (row.owner.Some? ==> row.owner.value in s.users)
  }

  ghost predicate Inv(rfc3339: string -> bool, s: Store) {
    && UniqueIds(s.tables)
    && (forall k :: k in s.tables ==> TableOk(rfc3339, k, s.tables[k]))
    && (forall r :: r in s.rows ==> RowOk(rfc3339, s, s.rows[r]))
  }

  lemma AuditKeepsInv(rfc3339: string -> bool, s: Store, claims: Claims)
    requires Inv(rfc3339, s)
    ensures Inv(rfc3339, Audited(s, claims))
  {
    forall r | r in s.rows ensures RowOk(rfc3339, Audited(s, claims), s.rows[r]) {
      assert RowOk(rfc3339, s, s.rows[r]);
    }
  }

  lemma RowOkNewTable(rfc3339: string -> bool, s: Store, key: TableKey, t: Table, row: StoredRow)
    requires RowOk(rfc3339, s, row) && key !in s.tables && forall k :: k in s.tables ==> s.tables[k].id != t.id
    ensures RowOk(rfc3339, s.(tables := s.tables[key := t]), row)
  {
    var k :| k in s.tables && s.tables[k].id == row.tableId;
    assert s.tables[key := t][k] == s.tables[k];
  }

  lemma AddTableKeepsInv(rfc3339: string -> bool, s: Store, key: TableKey, t: Table)
    requires Inv(rfc3339, s) && key !in s.tables && forall k :: k in s.tables ==> s.tables[k].id != t.id
    requires TableOk(rfc3339, key, t)
    ensures Inv(rfc3339, s.(tables := s.tables[key := t]))
  {
    forall r | r in s.rows ensures RowOk(rfc3339, s.(tables := s.tables[key := t]), s.rows[r]) {
      RowOkNewTable(rfc3339, s, key, t, s.rows[r]);
    }
  }

  lemma CreateTableKeepsInv(
    rfc3339: string -> bool, s: Store, claims: Claims, name: string, displayName: string,
    schema: Schema, policy: Policy, id: string, now: string)
    requires Inv(rfc3339, s)
    ensures Inv(rfc3339, CreateTable(rfc3339, s, claims, name, displayName, schema, policy, id, now).0)
  {
    if CreateTable(rfc3339, s, claims, name, displayName, schema, policy, id, now).1 == Created {
      TrimIdempotent(displayName);
      var t := Table(id, Trim(displayName), schema, policy, claims.sub, now);
      AddTableKeepsInv(rfc3339, s, KeyOf(claims, name), t);
      AuditKeepsInv(rfc3339, s.(tables := s.tables[KeyOf(claims, name) := t]), claims);
    }
  }

  lemma RowOkRedefined(rfc3339: string -> bool, s: Store, key: TableKey, t: Table, row: StoredRow)
    requires RowOk(rfc3339, s, row) && key in s.tables && t.id == s.tables[key].id
    requires row.tableId == t.id ==> Normalize(rfc3339, t.schema, Obj(row.data)).Some?
    ensures RowOk(rfc3339, s.(tables := s.tables[key := t]), row)
  {
    var k :| k in s.tables && s.tables[k].id == row.tableId;
    assert s.tables[key := t][k].id == s.tables[k].id;
  }

  lemma UniqueIdsRedefined(tables: map<TableKey, Table>, key: TableKey, t: Table)
    requires UniqueIds(tables) && key in tables && t.id == tables[key].id
    ensures UniqueIds(tables[key := t])
  {
  }

  lemma TablesOkRedefined(
    rfc3339: string -> bool, tables: map<TableKey, Table>, key: TableKey, t: Table, after: map<TableKey, Table>)
    requires TableOk(rfc3339, key, t) && forall k :: k in tables ==> TableOk(rfc3339, k, tables[k])
    requires after == tables[key := t]
    ensures forall k :: k in after ==> TableOk(rfc3339, k, after[k])
  {
  }

  /** A table definition may be replaced by one that its rows pass. */
  lemma RedefineKeepsInv(rfc3339: string -> bool, s: Store, key: TableKey, t: Table)
    requires Inv(rfc3339, s) && key in s.tables && t.id == s.tables[key].id
    requires TableOk(rfc3339, key, t) && RowsPass(rfc3339, s, t.id, t.schema)
    ensures Inv(rfc3339, s.(tables := s.tables[key := t]))
  {
    UniqueIdsRedefined(s.tables, key, t);
    TablesOkRedefined(rfc3339, s.tables, key, t, s.tables[key := t]);
    forall r | r in s.rows ensures RowOk(rfc3339, s.(tables := s.tables[key := t]), s.rows[r]) {
      assert RowOk(rfc3339, s, s.rows[r]);
      RowOkRedefined(rfc3339, s, key, t, s.rows[r]);
    }
  }

  lemma UpdateTableKeepsInv(
    rfc3339: string -> bool, s: Store, claims: Claims, name: string,
    displayName: Option<string>, schema: Option<Schema>, policy: Option<Policy>)
    requires Inv(rfc3339, s)
    ensures Inv(rfc3339, UpdateTable(rfc3339, s, claims, name, displayName, schema, policy).0)
  {
    var key := KeyOf(claims, name);
    if UpdateTable(rfc3339, s, claims, name, displayName, schema, policy).1 == Okay {
      var t := s.tables[key];
      TrimIdempotent(displayName.GetOr(t.displayName));
      RedefineKeepsInv(rfc3339, s, key, Updated(t, displayName, schema, policy));
      AuditKeepsInv(rfc3339, s.(tables := s.tables[key := Updated(t, displayName, schema, policy)]), claims);
    }
  }

  lemma RowOkWithoutTable(rfc3339: string -> bool, s: Store, key: TableKey, gone: set<string>, row: StoredRow)
    requires RowOk(rfc3339, s, row) && key in s.tables && row.tableId != s.tables[key].id
    ensures RowOk(rfc3339, s.(tables := s.tables - {key}, rows := s.rows - gone), row)
  {
    var k :| k in s.tables && s.tables[k].id == row.tableId;
    assert k in s.tables - {key};
  }

  lemma DeleteTableKeepsInv(rfc3339: string -> bool, s: Store, claims: Claims, name: string)
    requires Inv(rfc3339, s)
    ensures Inv(rfc3339, DeleteTable(s, claims, name).0)
  {
    if DeleteTable(s, claims, name).1 == Okay {
      var key := KeyOf(claims, name);
      var gone := RowsOf(s, s.tables[key].id);
      var s' := s.(tables := s.tables - {key}, rows := s.rows - gone);
      forall r | r in s'.rows ensures RowOk(rfc3339, s', s'.rows[r]) {
        RowOkWithoutTable(rfc3339, s, key, gone, s.rows[r]);
      }
      AuditKeepsInv(rfc3339, s', claims);
    }
  }

  /** A row may be put into its table if the table's schema accepts it. */
  lemma PutRowKeepsInv(rfc3339: string -> bool, s: Store, key: TableKey, id: string, row: StoredRow)
    requires Inv(rfc3339, s) && key in s.tables
    requires row.tableId == s.tables[key].id && row.app == key.app && Conforms(rfc3339, s.tables[key].schema, row.data)
    requires row.owner.Some? ==> row.owner.value in s.users
    ensures Inv(rfc3339, s.(rows := s.rows[id := row]))
  {
    var s' := s.(rows := s.rows[id := row]);
    forall r | r in s'.rows ensures RowOk(rfc3339, s', s'.rows[r]) {
      if r != id {
        assert RowOk(rfc3339, s, s.rows[r]);
      }
    }
  }

  /** The store a created row leaves. */
  lemma CreateRowResult(
    rfc3339: string -> bool, s: Store, claims: Claims, name: string, data: Json, quota: bool, id: string, now: string)
    requires CreateRow(rfc3339, s, claims, name, data, quota, id, now).1 == Created
    ensures KeyOf(claims, name) in s.tables
    ensures
      var t := s.tables[KeyOf(claims, name)];
      var normal, owner := Normalize(rfc3339, t.schema, data), OwnerForNewRow(claims, t.policy);
      && normal.Some? && CanInsert(s, id, owner)
      && CreateRow(rfc3339, s, claims, name, data, quota, id, now).0 ==
         Audited(s.(rows := s.rows[id := StoredRow(claims.app, t.id, owner, normal.value, now, now)]), claims)
  {
  }

  lemma InsertNormalKeepsInv(
    rfc3339: string -> bool, s: Store, key: TableKey, claims: Claims, data: Json, id: string, row: StoredRow)
    requires Inv(rfc3339, s) && key in s.tables && row.tableId == s.tables[key].id && row.app == key.app
    requires Normalize(rfc3339, s.tables[key].schema, data) == Some(row.data) && CanInsert(s, id, row.owner)
    ensures Inv(rfc3339, Audited(s.(rows := s.rows[id := row]), claims))
  {
    assert TableOk(rfc3339, key, s.tables[key]);
    NormalizeIdempotent(rfc3339, s.tables[key].schema, data);
    PutRowKeepsInv(rfc3339, s, key, id, row);
    AuditKeepsInv(rfc3339, s.(rows := s.rows[id := row]), claims);
  }

  lemma CreateRowKeepsInv(
    rfc3339: string -> bool, s: Store, claims: Claims, name: string, data: Json, quota: bool, id: string, now: string)
    requires Inv(rfc3339, s)
    ensures Inv(rfc3339, CreateRow(rfc3339, s, claims, name, data, quota, id, now).0)
  {
    if CreateRow(rfc3339, s, claims, name, data, quota, id, now).1 == Created {
      CreateRowResult(rfc3339, s, claims, name, data, quota, id, now);
      var key := KeyOf(claims, name);
      var t := s.tables[key];
      var owner, normal := OwnerForNewRow(claims, t.policy), Normalize(rfc3339, t.schema, data).value;
      InsertNormalKeepsInv(
        rfc3339, s, key, claims, data, id, StoredRow(claims.app, t.id, owner, normal, now, now));
    }
  }

  lemma UpdateRowKeepsInv(
    rfc3339: string -> bool, s: Store, claims: Claims, name: string, id: string, data: Json, now: string)
    requires Inv(rfc3339, s)
    ensures Inv(rfc3339, UpdateRow(rfc3339, s, claims, name, id, data, now).0)
  {
    if UpdateRow(rfc3339, s, claims, name, id, data, now).1 == Okay {
      var key := KeyOf(claims, name);
      var t, row := s.tables[key], s.rows[id];
      assert RowOk(rfc3339, s, row);
      NormalizeIdempotent(rfc3339, t.schema, Obj(row.data + data.fields));
      var row' := row.(data := Normalize(rfc3339, t.schema, Obj(row.data + data.fields)).value, updatedAt := now);
      PutRowKeepsInv(rfc3339, s, key, id, row');
      AuditKeepsInv(rfc3339, s.(rows := s.rows[id := row']), claims);
    }
  }

  lemma DeleteRowKeepsInv(rfc3339: string -> bool, s: Store, claims: Claims, name: string, id: string)
    requires Inv(rfc3339, s)
    ensures Inv(rfc3339, DeleteRow(s, claims, name, id).0)
  {
    if DeleteRow(s, claims, name, id).1 == Okay {
      var s' := s.(rows := s.rows - {id});
      forall r | r in s'.rows ensures RowOk(rfc3339, s', s'.rows[r]) {
        assert RowOk(rfc3339, s, s.rows[r]);
      }
      AuditKeepsInv(rfc3339, s', claims);
    }
  }

  lemma DisownedRowOk(rfc3339: string -> bool, s: Store, row: StoredRow, user: string)
    requires RowOk(rfc3339, s, row) && !FallsWith(s, row, user)
    ensures RowOk(rfc3339, WithoutUser(s, user), Disowned(row, user))
  {
    var k :| k in s.tables && s.tables[k].id == row.tableId;
    assert k in WithoutUser(s, user).tables;
  }

  lemma DeleteUserKeepsInv(
    rfc3339: string -> bool, s: Store, claims: Claims, user: string, found: bool, elsewhere: bool)
    requires Inv(rfc3339, s)
    ensures Inv(rfc3339, DeleteUser(s, claims, user, found, elsewhere).0)
  {
    if DeleteUser(s, claims, user, found, elsewhere).1 == Okay {
      var after := WithoutUser(s, user);
      forall r | r in after.rows ensures RowOk(rfc3339, after, after.rows[r]) {
        DisownedRowOk(rfc3339, s, s.rows[r], user);
      }
    }
  }

  /** A gentle change that the evolution check accepts is never refused because of stored rows. */
  lemma GentleUpdateAccepted(
    rfc3339: string -> bool, s: Store, claims: Claims, name: string,
    displayName: Option<string>, schema: Schema, policy: Option<Policy>)
    requires Inv(rfc3339, s) && claims.isAdmin && KeyOf(claims, name) in s.tables
    requires displayName.Some? ==> Trim(displayName.value) != ""
    requires ValidSchema(rfc3339, schema) && (policy.Some? ==> ValidPolicy(policy.value))
    requires
      var t := s.tables[KeyOf(claims, name)];
      EvolutionAccepted(t.schema, schema, |RowsOf(s, t.id)|) && Gentle(t.schema, schema)
    ensures
      var key := KeyOf(claims, name);
      UpdateTable(rfc3339, s, claims, name, displayName, Some(schema), policy) ==
      (Audited(s.(tables := s.tables[key := Updated(s.tables[key], displayName, Some(schema), policy)]), claims), Okay)
  {
    var t := s.tables[KeyOf(claims, name)];
    assert TableOk(rfc3339, KeyOf(claims, name), t);
    GentleRowsPass(rfc3339, s, KeyOf(claims, name), schema);
    assert UpdateAccepted(rfc3339, s, t, Updated(t, displayName, Some(schema), policy));
  }

  lemma GentleRowsPass(rfc3339: string -> bool, s: Store, key: TableKey, schema: Schema)
    requires Inv(rfc3339, s) && key in s.tables
    requires EvolutionAccepted(s.tables[key].schema, schema, |RowsOf(s, s.tables[key].id)|)
    requires Gentle(s.tables[key].schema, schema)
    ensures RowsPass(rfc3339, s, s.tables[key].id, schema)
  {
    var t := s.tables[key];
    forall r | r in s.rows && s.rows[r].tableId == t.id ensures Normalize(rfc3339, schema, Obj(s.rows[r].data)).Some? {
      assert RowOk(rfc3339, s, s.rows[r]) && r in RowsOf(s, t.id);
      GentleKeepsRow(rfc3339, t.schema, schema, |RowsOf(s, t.id)|, s.rows[r].data);
    }
  }

  /** A row that its table's own export would carry back unchanged: no default missing, and an owner that fits. */
  predicate RowFits(t: Table, row: StoredRow) {
    DefaultsPresent(t.schema, row.data) && OwnerFits(t.policy, row.owner)
  }

  /** `after` differs from `s` in the one row `id`, if at all. */
  ghost predicate OnlyRow(s: Store, after: Store, id: string) {
    && after.tables == s.tables && after.users == s.users
    && forall r :: r != id ==> (r in after.rows <==> r in s.rows) && (r in s.rows ==> after.rows[r] == s.rows[r])
  }

  /** A created row holds what was given and the defaults of what was not, under an id that was free. */
  lemma CreateRowEffect(
    rfc3339: string -> bool, s: Store, claims: Claims, name: string, data: Json, quota: bool, id: string, now: string)
    requires Inv(rfc3339, s) && CreateRow(rfc3339, s, claims, name, data, quota, id, now).1 == Created
    ensures
      var t, after := s.tables[KeyOf(claims, name)], CreateRow(rfc3339, s, claims, name, data, quota, id, now).0;
      && OnlyRow(s, after, id) && id !in s.rows && id in after.rows && after.rows[id].tableId == t.id
      && (forall f :: f in data.fields ==> f in after.rows[id].data && after.rows[id].data[f] == data.fields[f])
      && (forall f :: f in t.schema && f !in data.fields && t.schema[f].default.Some? ==>
            f in after.rows[id].data && after.rows[id].data[f] == t.schema[f].default.value)
      && (forall f :: f in after.rows[id].data ==> f in t.schema && (f in data.fields || t.schema[f].default.Some?))
  {
    NormalizeIdempotent(rfc3339, s.tables[KeyOf(claims, name)].schema, data);
  }

  /** Normalising a patched row keeps the patch and, elsewhere, the row. */
  lemma MergedKeepsFields(rfc3339: string -> bool, schema: Schema, row: Row, patch: Row)
    requires Normalize(rfc3339, schema, Obj(row + patch)).Some?
    ensures
      var normal := Normalize(rfc3339, schema, Obj(row + patch)).value;
      && (forall f :: f in patch ==> f in normal && normal[f] == patch[f])
      && (forall f :: f in row && f !in patch ==> f in normal && normal[f] == row[f])
  {
    var normal := WithDefaults(schema, row + patch);
    forall f | f in row + patch ensures f in normal && normal[f] == (row + patch)[f] {}
  }

  lemma PutIsOnlyRow(s: Store, claims: Claims, id: string, row: StoredRow)
    ensures OnlyRow(s, Audited(s.(rows := s.rows[id := row]), claims), id)
  {
  }

  /** The store an accepted patch leaves. */
  lemma UpdateRowResult(
    rfc3339: string -> bool, s: Store, claims: Claims, name: string, id: string, data: Json, now: string)
    requires UpdateRow(rfc3339, s, claims, name, id, data, now).1 == Okay
    ensures KeyOf(claims, name) in s.tables && id in s.rows && data.Obj?
    ensures
      var normal := Normalize(rfc3339, s.tables[KeyOf(claims, name)].schema, Obj(s.rows[id].data + data.fields));
      && normal.Some?
      && UpdateRow(rfc3339, s, claims, name, id, data, now).0 ==
         Audited(s.(rows := s.rows[id := s.rows[id].(data := normal.value, updatedAt := now)]), claims)
  {
  }

  /** An accepted patch sets its own fields, keeps the others, and leaves owner, table and other rows alone. */
  lemma UpdateRowEffect(
    rfc3339: string -> bool, s: Store, claims: Claims, name: string, id: string, data: Json, now: string)
    requires Inv(rfc3339, s) && UpdateRow(rfc3339, s, claims, name, id, data, now).1 == Okay
    ensures
      var before, after := s.rows[id], UpdateRow(rfc3339, s, claims, name, id, data, now).0;
      && OnlyRow(s, after, id) && id in after.rows
      && after.rows[id] == before.(data := after.rows[id].data, updatedAt := now)
      && (forall f :: f in data.fields ==> f in after.rows[id].data && after.rows[id].data[f] == data.fields[f])
      && (forall f :: f in before.data && f !in data.fields ==>
            f in after.rows[id].data && after.rows[id].data[f] == before.data[f])
  {
    UpdateRowResult(rfc3339, s, claims, name, id, data, now);
    var schema := s.tables[KeyOf(claims, name)].schema;
    var normal := Normalize(rfc3339, schema, Obj(s.rows[id].data + data.fields)).value;
    MergedKeepsFields(rfc3339, schema, s.rows[id].data, data.fields);
    PutIsOnlyRow(s, claims, id, s.rows[id].(data := normal, updatedAt := now));
  }

  /** A patch to a stored row is refused as malformed if and only if it is not a well-typed object. */
  lemma PatchRefusedIffIllTyped(
    rfc3339: string -> bool, s: Store, claims: Claims, name: string, id: string, data: Json, now: string)
    requires Inv(rfc3339, s)
    requires KeyOf(claims, name) in s.tables && id in RowsOf(s, s.tables[KeyOf(claims, name)].id)
    requires CanAccessRow(claims, s.tables[KeyOf(claims, name)].policy, s.rows[id].owner, Update)
    ensures
      UpdateRow(rfc3339, s, claims, name, id, data, now).1 == BadRequest <==>
      !(data.Obj? && WellTyped(rfc3339, s.tables[KeyOf(claims, name)].schema, data.fields))
  {
    assert RowOk(rfc3339, s, s.rows[id]);
    if data.Obj? {
      PatchAcceptedIffWellTyped(rfc3339, s.tables[KeyOf(claims, name)].schema, s.rows[id].data, data.fields);
    }
  }
}
