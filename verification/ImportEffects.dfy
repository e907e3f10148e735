/**
 What an import answers and changes, in terms of the request and the store
 before and after.
 */
module ImportEffects {
  import opened Common
  import opened Text
  import opened Schema
  import opened SchemaEvolution
  import opened DataStore
  import opened TableImport
  import opened DataApi
  import opened DataEffects

  /** The id under which row `i` of a request is stored: its own, or a generated one. */
  function RequestId(env: Env, req: ImportRequest, i: nat): string
    requires i < |req.rows|
  {
    match req.rows[i].id
    case Some(id) => id
    case None => env.newId(i)
  }

  // --- Which rows stay -----------------------------------------------------------------

  /** In append mode, which is the default, every row stays as it is. */
  lemma AppendKeepsRows(env: Env, s: Store, claims: Claims, name: string, req: ImportRequest, now: string, r: string)
    requires req.mode == None || req.mode == Some("append")
    requires r in s.rows
    ensures
      var after := Import(env, s, claims, name, req, now).0;
      r in after.rows && after.rows[r] == s.rows[r]
  {
    var key := KeyOf(claims, name);
    if claims.isAdmin && key in s.tables && ReadyStore(env, s, key, req).Some? {
      var base := ReadyStore(env, s, key, req).value;
      ReadyRowsPass(env, s, key, req);
      ImportRunsLoop(env, s, claims, name, req, now);
      InsertLoopKeepsRows(env, base, key, req.rows, 0, now, r);
    }
  }

  /** The row is there because the request put it there. */
  ghost predicate FromRequest(env: Env, req: ImportRequest, n: nat, r: string) {
    n <= |req.rows| && exists i :: 0 <= i < n && RequestId(env, req, i) == r
  }

  lemma InsertedFromRequest(
    env: Env, base: Store, after: Store, req: ImportRequest, made: seq<StoredRow>, n: nat, r: string)
    requires Inserted(base, after, Ids(env, req.rows), made, n) && r in after.rows && r !in base.rows
    ensures FromRequest(env, req, n, r)
  {
    var ids := Ids(env, req.rows);
    assert r in ids[..n];
    var i :| 0 <= i < n && ids[i] == r;
    assert RequestId(env, req, i) == r;
  }

  /** What an import that writes has done to the rows, given the rows it started from. */
  lemma WritesRows(env: Env, s: Store, claims: Claims, name: string, req: ImportRequest, now: string)
    requires claims.isAdmin && KeyOf(claims, name) in s.tables
    requires ReadyStore(env, s, KeyOf(claims, name), req).Some?
    ensures
      var base := ReadyStore(env, s, KeyOf(claims, name), req).value;
      var (after, _, n) := Import(env, s, claims, name, req, now);
      && (forall r :: r in base.rows ==> r in after.rows && after.rows[r] == base.rows[r])
      && (forall r :: r in after.rows && r !in base.rows ==> FromRequest(env, req, n, r))
  {
    var key := KeyOf(claims, name);
    var base := ReadyStore(env, s, key, req).value;
    var (after, _, n) := Import(env, s, claims, name, req, now);
    ImportInserts(env, s, claims, name, req, now);
    forall r | r in after.rows && r !in base.rows ensures FromRequest(env, req, n, r) {
      InsertedFromRequest(
        env, base, after, req, Made(env.rfc3339, key.app, base.tables[key], req.rows, now), n, r);
    }
  }

  lemma ReadyRows(env: Env, s: Store, key: TableKey, req: ImportRequest)
    requires key in s.tables && ReadyStore(env, s, key, req).Some? && req.mode == Some("replace")
    ensures
      var base := ReadyStore(env, s, key, req).value;
      && (forall r :: r in base.rows <==>
            r in s.rows && !(s.rows[r].app == key.app && s.rows[r].tableId == s.tables[key].id))
      && (forall r :: r in base.rows ==> base.rows[r] == s.rows[r])
  {
  }

  /** In replace mode, of the old rows of the table only those stay that the request brings again. */
  lemma ReplaceClearsTable(env: Env, s: Store, claims: Claims, name: string, req: ImportRequest, now: string, r: string)
    requires Inv(env.rfc3339, s) && req.mode == Some("replace") && r in s.rows
    requires Import(env, s, claims, name, req, now).1 in {Created, Conflict}
    ensures TableKey(claims.app, Lower(Trim(name))) in s.tables
    ensures
      var (after, _, n) := Import(env, s, claims, name, req, now);
      var tableId := s.tables[TableKey(claims.app, Lower(Trim(name)))].id;
      && (s.rows[r].tableId == tableId && r in after.rows ==> FromRequest(env, req, n, r))
      && (s.rows[r].tableId != tableId ==> r in after.rows && after.rows[r] == s.rows[r])
  {
    var key := KeyOf(claims, name);
    OnlyInsertsWrite(env, s, claims, name, req, now);
    if s.rows[r].tableId == s.tables[key].id {
      RowsAtHome(env.rfc3339, s, key, r);
    }
    ReplacesRow(env, s, claims, name, req, now, r);
  }

  lemma ReplacesRow(env: Env, s: Store, claims: Claims, name: string, req: ImportRequest, now: string, r: string)
    requires claims.isAdmin && KeyOf(claims, name) in s.tables && req.mode == Some("replace") && r in s.rows
    requires ReadyStore(env, s, KeyOf(claims, name), req).Some?
    requires s.rows[r].tableId == s.tables[KeyOf(claims, name)].id ==> s.rows[r].app == claims.app
    ensures
      var (after, _, n) := Import(env, s, claims, name, req, now);
      var tableId := s.tables[KeyOf(claims, name)].id;
      && (s.rows[r].tableId == tableId && r in after.rows ==> FromRequest(env, req, n, r))
      && (s.rows[r].tableId != tableId ==> r in after.rows && after.rows[r] == s.rows[r])
  {
    ReadyRows(env, s, KeyOf(claims, name), req);
    WritesRows(env, s, claims, name, req, now);
  }

  // --- Which definition there is afterwards ------------------------------------------------

  lemma ReadyTables(env: Env, s: Store, key: TableKey, req: ImportRequest)
    requires key in s.tables && ReadyStore(env, s, key, req).Some?
    ensures
      var base := ReadyStore(env, s, key, req).value;
      && key in base.tables && OnlyTable(s, base, key)
      && (req.restoreTable != Some(true) ==> base.tables == s.tables)
      && (req.restoreTable == Some(true) ==>
            && req.table.Some?
            && base.tables[key] ==
               s.tables[key].(displayName := Trim(req.table.value.displayName), schema := req.table.value.schema,
                              policy := req.table.value.policy))
  {
  }

  /** The definition is the one of the request if it asked for it to be restored, and otherwise as before. */
  lemma DefinitionAfterImport(env: Env, s: Store, claims: Claims, name: string, req: ImportRequest, now: string)
    requires Inv(env.rfc3339, s) && Import(env, s, claims, name, req, now).1 in {Created, Conflict}
    ensures
      var after, key := Import(env, s, claims, name, req, now).0, TableKey(claims.app, Lower(Trim(name)));
      && key in s.tables && key in after.tables && OnlyTable(s, after, key)
      && (req.restoreTable != Some(true) ==> after.tables == s.tables)
      && (req.restoreTable == Some(true) ==>
            && req.table.Some? && Lower(Trim(req.table.value.name)) == key.name
            && after.tables[key] ==
               s.tables[key].(displayName := Trim(req.table.value.displayName), schema := req.table.value.schema,
                              policy := req.table.value.policy))
  {
    var key := KeyOf(claims, name);
    OnlyInsertsWrite(env, s, claims, name, req, now);
    ReadyTables(env, s, key, req);
    ImportInserts(env, s, claims, name, req, now);
  }

  // --- Which rows there are afterwards -------------------------------------------------------

  /** Row `i` of the request as it is stored. */
  ghost predicate StoredAs(env: Env, t: Table, app: string, given: ImportRow, row: StoredRow, now: string) {
    && row.app == app && row.tableId == t.id && row.createdAt == now && row.updatedAt == now
    && given.data.Obj? && Conforms(env.rfc3339, t.schema, given.data.fields)
    && (forall f :: f in given.data.fields ==> f in row.data && row.data[f] == given.data.fields[f])
    && (forall f :: f in row.data ==>
          f in given.data.fields || (f in t.schema && t.schema[f].default == Some(row.data[f])))
    && DefaultsPresent(t.schema, row.data)
    && (row.owner == given.owner || row.owner == None) && OwnerFits(t.policy, row.owner)
    && (given.owner.Some? && Trim(given.owner.value) != "" && OwnerNeedOf(t.policy) != Never ==>
          row.owner == given.owner)
  }

  lemma PreparedStoredAs(env: Env, app: string, t: Table, given: ImportRow, now: string)
    requires ValidPolicy(t.policy) && RowPasses(env.rfc3339, t, given)
    ensures StoredAs(env, t, app, given, Prepared(env.rfc3339, app, t, given, now), now)
  {
  }

  lemma RowStored(
    env: Env, base: Store, after: Store, key: TableKey, req: ImportRequest, made: seq<StoredRow>, n: nat, i: nat,
    now: string)
    requires key in base.tables && ValidPolicy(base.tables[key].policy) && i < n
    requires Inserted(base, after, Ids(env, req.rows), made, n) && RowPasses(env.rfc3339, base.tables[key], req.rows[i])
    requires made[i] == Prepared(env.rfc3339, key.app, base.tables[key], req.rows[i], now)
    ensures key in after.tables && RequestId(env, req, i) in after.rows
    ensures StoredAs(env, after.tables[key], key.app, req.rows[i], after.rows[RequestId(env, req, i)], now)
  {
    var ids := Ids(env, req.rows);
    assert ids[i] == RequestId(env, req, i) && after.rows[ids[i]] == made[i];
    PreparedStoredAs(env, key.app, base.tables[key], req.rows[i], now);
  }

  lemma StoredUnderOwnIds(env: Env, base: Store, after: Store, req: ImportRequest, made: seq<StoredRow>, n: nat)
    requires Inserted(base, after, Ids(env, req.rows), made, n)
    ensures n <= |req.rows|
    ensures forall i, j :: 0 <= i < j < n ==> RequestId(env, req, i) != RequestId(env, req, j)
  {
    var ids := Ids(env, req.rows);
    forall i, j | 0 <= i < j < n ensures RequestId(env, req, i) != RequestId(env, req, j) {
      assert ids[..n][i] != ids[..n][j] && ids[i] == RequestId(env, req, i) && ids[j] == RequestId(env, req, j);
    }
  }

  /** The rows of the request up to the first that cannot be inserted are stored, under their ids. */
  lemma ImportedRows(env: Env, s: Store, claims: Claims, name: string, req: ImportRequest, now: string)
    requires Inv(env.rfc3339, s) && Import(env, s, claims, name, req, now).1 in {Created, Conflict}
    ensures
      var (after, response, n) := Import(env, s, claims, name, req, now);
      var key := TableKey(claims.app, Lower(Trim(name)));
      && key in after.tables && n <= |req.rows| && (response == Created <==> n == |req.rows|)
      && (forall i :: 0 <= i < n ==>
            && RequestId(env, req, i) in after.rows
            && StoredAs(env, after.tables[key], claims.app, req.rows[i], after.rows[RequestId(env, req, i)], now))
      && (forall i, j :: 0 <= i < j < n ==> RequestId(env, req, i) != RequestId(env, req, j))
  {
    var key := KeyOf(claims, name);
    OnlyInsertsWrite(env, s, claims, name, req, now);
    ReadyStoreKeepsInv(env, s, key, req);
    assert TableOk(env.rfc3339, key, ReadyStore(env, s, key, req).value.tables[key]) by {
      ReadyTables(env, s, key, req);
    }
    InsertsRows(env, s, claims, name, req, now);
  }

  lemma InsertsRows(env: Env, s: Store, claims: Claims, name: string, req: ImportRequest, now: string)
    requires claims.isAdmin && KeyOf(claims, name) in s.tables && ReadyStore(env, s, KeyOf(claims, name), req).Some?
    requires KeyOf(claims, name) in ReadyStore(env, s, KeyOf(claims, name), req).value.tables
    requires ValidPolicy(ReadyStore(env, s, KeyOf(claims, name), req).value.tables[KeyOf(claims, name)].policy)
    ensures
      var (after, response, n) := Import(env, s, claims, name, req, now);
      var key := KeyOf(claims, name);
      && key in after.tables && n <= |req.rows| && (response == Created <==> n == |req.rows|)
      && (forall i :: 0 <= i < n ==>
            && RequestId(env, req, i) in after.rows
            && StoredAs(env, after.tables[key], key.app, req.rows[i], after.rows[RequestId(env, req, i)], now))
      && (forall i, j :: 0 <= i < j < n ==> RequestId(env, req, i) != RequestId(env, req, j))
  {
    var key := KeyOf(claims, name);
    ImportInserts(env, s, claims, name, req, now);
    var base := ReadyStore(env, s, key, req).value;
    var (after, _, n) := Import(env, s, claims, name, req, now);
    var made := Made(env.rfc3339, key.app, base.tables[key], req.rows, now);
    StoredUnderOwnIds(env, base, after, req, made, n);
    forall i | 0 <= i < n
      ensures RequestId(env, req, i) in after.rows
      ensures StoredAs(env, after.tables[key], key.app, req.rows[i], after.rows[RequestId(env, req, i)], now)
    {
      RowStored(env, base, after, key, req, made, n, i, now);
    }
  }

  // --- Answers -----------------------------------------------------------------------------

  lemma {:induction false} InsertAnswers(env: Env, s: Store, key: TableKey, rows: seq<ImportRow>, i: nat, now: string)
    requires key in s.tables && i <= |rows|
    ensures InsertFrom(env, s, key, rows, i, now).1 in {Created, Conflict, BadRequest}
    decreases |rows| - i
  {
    if i < |rows| && RowPasses(env.rfc3339, s.tables[key], rows[i]) {
      var row := Prepared(env.rfc3339, key.app, s.tables[key], rows[i], now);
      if CanInsert(s, IdFor(env, rows, i), row.owner) {
        InsertAnswers(env, s.(rows := s.rows[IdFor(env, rows, i) := row]), key, rows, i + 1, now);
      }
    }
  }

  /** How far an import gets. */
  lemma ImportPhases(env: Env, s: Store, claims: Claims, name: string, req: ImportRequest, now: string)
    ensures
      var response, key := Import(env, s, claims, name, req, now).1, KeyOf(claims, name);
      if !claims.isAdmin then response == Forbidden
      else if key !in s.tables then response == NotFound
      else if !ChecksPass(env, s, key, req) then response == BadRequest
      else if req.dryRun == Some(true) then response == Okay
      else response in {Created, Conflict, BadRequest}
  {
    var key := KeyOf(claims, name);
    if claims.isAdmin && key in s.tables && ReadyStore(env, s, key, req).Some? {
      ReadyRowsPass(env, s, key, req);
      ImportRunsLoop(env, s, claims, name, req, now);
      InsertAnswers(env, ReadyStore(env, s, key, req).value, key, req.rows, 0, now);
    }
  }

  lemma ImportAnswers(env: Env, s: Store, claims: Claims, name: string, req: ImportRequest, now: string)
    ensures
      var response, key := Import(env, s, claims, name, req, now).1, TableKey(claims.app, Lower(Trim(name)));
      && (response == Forbidden <==> !claims.isAdmin)
      && (response == NotFound <==> claims.isAdmin && key !in s.tables)
      && (req.mode.Some? && req.mode.value !in {"append", "replace"} ==> response in {Forbidden, NotFound, BadRequest})
      && (req.restoreTable == Some(true) && req.table.None? ==> response in {Forbidden, NotFound, BadRequest})
      && (response == Okay ==> req.dryRun == Some(true))
      && (response in {Created, Conflict} ==> req.dryRun != Some(true))
  {
    ImportPhases(env, s, claims, name, req, now);
  }

  /** The definition a checksum is taken over: the one sent along, or the one stored. */
  ghost function SentDetail(key: TableKey, t: Table, req: ImportRequest): TableDetail {
    match req.table
    case None => TableDetail(key.name, t.displayName, t.schema, t.policy, t.createdBy, t.createdAt)
    case Some(spec) =>
      TableDetail(
        spec.name, spec.displayName, spec.schema, spec.policy, spec.createdBy.GetOr(""), spec.createdAt.GetOr(""))
  }

  ghost function SentRow(row: ImportRow): RowResponse {
    RowResponse(row.id.GetOr(""), row.owner, row.data, row.createdAt.GetOr(""), row.updatedAt.GetOr(""))
  }

  /** Version, length and checksum of the request are right. */
  ghost predicate Verified(env: Env, key: TableKey, t: Table, req: ImportRequest) {
    && req.metadata.Some?
    && req.metadata.value.exportVersion == "peanut.table-export.v1"
    && req.metadata.value.rowCount == |req.rows|
    && (req.table.Some? ==> req.table.value.createdBy.Some? && req.table.value.createdAt.Some?)
    && (forall i :: 0 <= i < |req.rows| ==>
          req.rows[i].id.Some? && req.rows[i].createdAt.Some? && req.rows[i].updatedAt.Some?)
    && req.metadata.value.checksum ==
       env.checksum(SentDetail(key, t, req), seq(|req.rows|, i requires 0 <= i < |req.rows| => SentRow(req.rows[i])))
  }

  lemma VerifiedIff(env: Env, key: TableKey, t: Table, req: ImportRequest)
    ensures ChecksumPasses(env, key, t, req) <==> Verified(env, key, t, req)
  {
    if forall i :: 0 <= i < |req.rows| ==> HasExportFields(req.rows[i]) {
      assert Responses(req.rows) == seq(|req.rows|, i requires 0 <= i < |req.rows| => SentRow(req.rows[i]));
    }
  }

  /** A request that asks for verification is refused unless version, length and checksum are right. */
  lemma ChecksumEnforced(env: Env, s: Store, claims: Claims, name: string, req: ImportRequest, now: string)
    requires claims.isAdmin && TableKey(claims.app, Lower(Trim(name))) in s.tables && req.verifyChecksum == Some(true)
    requires
      var key := TableKey(claims.app, Lower(Trim(name)));
      !Verified(env, key, s.tables[key], req)
    ensures Import(env, s, claims, name, req, now).1 == BadRequest
  {
    var key := KeyOf(claims, name);
    VerifiedIff(env, key, s.tables[key], req);
    ImportPhases(env, s, claims, name, req, now);
  }

  /** A row that does not suit the table, or lacks an owner it must have, makes the request a bad one. */
  lemma UnsuitableRowRefused(env: Env, s: Store, claims: Claims, name: string, req: ImportRequest, now: string, i: nat)
    requires claims.isAdmin && TableKey(claims.app, Lower(Trim(name))) in s.tables
    requires req.restoreTable != Some(true) && i < |req.rows|
    requires
      var t := s.tables[TableKey(claims.app, Lower(Trim(name)))];
      || !req.rows[i].data.Obj? || !Conforms(env.rfc3339, t.schema, req.rows[i].data.fields)
      || (OwnerNeedOf(t.policy) == Required && (req.rows[i].owner.None? || Trim(req.rows[i].owner.value) == ""))
    ensures Import(env, s, claims, name, req, now).1 == BadRequest
  {
    var t := s.tables[KeyOf(claims, name)];
    ImportPhases(env, s, claims, name, req, now);
    assert !RowPasses(env.rfc3339, t, req.rows[i]);
  }

  /**
   So does a definition that is not valid, not meant for this table, or, in
   append mode, refused by the evolution check.
   */
  lemma UnsuitableDefinitionRefused(env: Env, s: Store, claims: Claims, name: string, req: ImportRequest, now: string)
    requires claims.isAdmin && TableKey(claims.app, Lower(Trim(name))) in s.tables
    requires req.restoreTable == Some(true) && req.table.Some?
    requires
      var key, spec := TableKey(claims.app, Lower(Trim(name))), req.table.value;
      || Lower(Trim(spec.name)) != key.name || Trim(spec.displayName) == ""
      || !ValidSchema(env.rfc3339, spec.schema) || !ValidPolicy(spec.policy)
      || (req.mode != Some("replace")
          && !EvolutionAccepted(s.tables[key].schema, spec.schema, |RowsOf(s, s.tables[key].id)|))
    ensures Import(env, s, claims, name, req, now).1 == BadRequest
  {
    ImportPhases(env, s, claims, name, req, now);
  }

  /** A request that the checks before the first write let pass, spelled out. */
  ghost predicate Suitable(env: Env, s: Store, t: Table, req: ImportRequest) {
    && (forall i :: 0 <= i < |req.rows| ==>
          && req.rows[i].data.Obj? && Conforms(env.rfc3339, t.schema, req.rows[i].data.fields)
          && NormalizeImportOwner(t.policy, req.rows[i].owner).Some?
          && (req.rows[i].owner.Some? ==> req.rows[i].owner.value in s.users)
          && RequestId(env, req, i) !in s.rows)
    && forall i, j :: 0 <= i < j < |req.rows| ==> RequestId(env, req, i) != RequestId(env, req, j)
  }

  ghost predicate Plain(req: ImportRequest) {
    && (req.mode == None || req.mode == Some("append")) && req.restoreTable != Some(true)
    && req.verifyChecksum != Some(true) && req.dryRun != Some(true)
  }

  lemma PlainReady(env: Env, s: Store, key: TableKey, req: ImportRequest)
    requires key in s.tables && Plain(req) && Suitable(env, s, s.tables[key], req)
    ensures ReadyStore(env, s, key, req) == Some(s)
  {
  }

  /** A plain request whose rows suit the table, under free and distinct ids and for existing owners, is carried out. */
  lemma PlainImportCreated(env: Env, s: Store, claims: Claims, name: string, req: ImportRequest, now: string)
    requires claims.isAdmin && TableKey(claims.app, Lower(Trim(name))) in s.tables && Plain(req)
    requires Suitable(env, s, s.tables[TableKey(claims.app, Lower(Trim(name)))], req)
    ensures Import(env, s, claims, name, req, now).1 == Created
    ensures Import(env, s, claims, name, req, now).2 == |req.rows|
  {
    var key := KeyOf(claims, name);
    PlainReady(env, s, key, req);
    ImportInserts(env, s, claims, name, req, now);
    var (after, response, n) := Import(env, s, claims, name, req, now);
    if n < |req.rows| {
      var made := Made(env.rfc3339, key.app, s.tables[key], req.rows, now);
      FreeRowInserted(env, s, after, req, made, n);
      NeverStopped(env, s, after, key, req, made, n, now);
    }
  }

  lemma NeverStopped(
    env: Env, s: Store, after: Store, key: TableKey, req: ImportRequest, made: seq<StoredRow>, n: nat, now: string)
    requires key in s.tables && Suitable(env, s, s.tables[key], req) && n < |req.rows| == |made|
    requires RowPasses(env.rfc3339, s.tables[key], req.rows[n])
    requires made[n] == Prepared(env.rfc3339, key.app, s.tables[key], req.rows[n], now)
    requires RequestId(env, req, n) !in after.rows && after.users == s.users
    ensures CanInsert(after, IdFor(env, req.rows, n), made[n].owner)
  {
    assert IdFor(env, req.rows, n) == RequestId(env, req, n);
  }

  lemma FreeRowInserted(env: Env, s: Store, after: Store, req: ImportRequest, made: seq<StoredRow>, n: nat)
    requires Inserted(s, after, Ids(env, req.rows), made, n) && n < |req.rows| && RequestId(env, req, n) !in s.rows
    requires forall i, j :: 0 <= i < j < |req.rows| ==> RequestId(env, req, i) != RequestId(env, req, j)
    ensures RequestId(env, req, n) !in after.rows && after.users == s.users
  {
    var ids := Ids(env, req.rows);
    forall i | 0 <= i < n ensures ids[..n][i] != RequestId(env, req, n) {
      assert ids[i] == RequestId(env, req, i);
    }
  }

  // --- Applications are separate ---------------------------------------------------------------

  lemma ReadyRowsAtHome(env: Env, s: Store, key: TableKey, req: ImportRequest)
    requires key in s.tables && ReadyStore(env, s, key, req).Some?
    ensures
      var base := ReadyStore(env, s, key, req).value;
      && (forall r :: r in base.rows ==> r in s.rows && base.rows[r] == s.rows[r])
      && (forall r :: r in s.rows && s.rows[r].app != key.app ==> r in base.rows)
  {
  }

  lemma WritingImportStaysHome(env: Env, s: Store, claims: Claims, name: string, req: ImportRequest, now: string)
    requires claims.isAdmin && KeyOf(claims, name) in s.tables && ReadyStore(env, s, KeyOf(claims, name), req).Some?
    ensures OthersUntouched(s, Import(env, s, claims, name, req, now).0, claims.app)
  {
    var key := KeyOf(claims, name);
    ReadyRowsAtHome(env, s, key, req);
    ReadyTables(env, s, key, req);
    ImportInserts(env, s, claims, name, req, now);
    var base := ReadyStore(env, s, key, req).value;
    var (after, _, n) := Import(env, s, claims, name, req, now);
    InsertedAtHome(env, base, after, key, req.rows, Made(env.rfc3339, key.app, base.tables[key], req.rows, now), n);
  }

  lemma InsertedAtHome(
    env: Env, base: Store, after: Store, key: TableKey, rows: seq<ImportRow>, made: seq<StoredRow>, n: nat)
    requires Inserted(base, after, Ids(env, rows), made, n) && forall i :: 0 <= i < |made| ==> made[i].app == key.app
    ensures after.tables == base.tables
    ensures forall r :: r in base.rows ==> r in after.rows && after.rows[r] == base.rows[r]
    ensures forall r :: r in after.rows && after.rows[r].app != key.app ==> r in base.rows
  {
    var ids := Ids(env, rows);
    forall r | r in after.rows && r !in base.rows ensures after.rows[r].app == key.app {
      assert r in ids[..n];
      var i :| 0 <= i < n && ids[i] == r;
    }
  }

  lemma ImportStaysHome(env: Env, s: Store, claims: Claims, name: string, req: ImportRequest, now: string)
    requires Inv(env.rfc3339, s)
    ensures OthersUntouched(s, Import(env, s, claims, name, req, now).0, claims.app)
  {
    OnlyInsertsWrite(env, s, claims, name, req, now);
    if Import(env, s, claims, name, req, now).1 in {Created, Conflict} {
      WritingImportStaysHome(env, s, claims, name, req, now);
    }
  }

  lemma RowStepStaysHome(env: Env, s: Store, step: Step)
    requires Inv(env.rfc3339, s) && (step.CreateRowStep? || step.UpdateRowStep? || step.DeleteRowStep?)
    ensures OthersUntouched(s, Apply(env, s, step), step.claims.app)
  {
    match step
    case CreateRowStep(claims, name, data, quota, id, now) =>
      CreateRowStaysHome(env.rfc3339, s, claims, name, data, quota, id, now);
    case UpdateRowStep(claims, name, id, data, now) => UpdateRowStaysHome(env.rfc3339, s, claims, name, id, data, now);
    case DeleteRowStep(claims, name, id) => DeleteRowStaysHome(env.rfc3339, s, claims, name, id);
  }

  lemma TableStepStaysHome(env: Env, s: Store, step: Step)
    requires Inv(env.rfc3339, s) && (step.CreateTableStep? || step.UpdateTableStep? || step.DeleteTableStep?)
    ensures OthersUntouched(s, Apply(env, s, step), step.claims.app)
  {
    match step
    case CreateTableStep(claims, name, display, schema, policy, id, now) =>
      CreateTableStaysHome(env.rfc3339, s, claims, name, display, schema, policy, id, now);
    case UpdateTableStep(claims, name, display, schema, policy) =>
      UpdateTableStaysHome(env.rfc3339, s, claims, name, display, schema, policy);
    case DeleteTableStep(claims, name) => DeleteTableStaysHome(env.rfc3339, s, claims, name);
  }

  /** Whatever a caller does to tables and rows, those of other applications stay as they are. */
  lemma StepStaysHome(env: Env, s: Store, step: Step)
    requires Inv(env.rfc3339, s) && !step.AddUser? && !step.DeleteUserStep?
    ensures OthersUntouched(s, Apply(env, s, step), step.claims.app)
  {
    if step.ImportStep? {
      ImportStaysHome(env, s, step.claims, step.name, step.req, step.now);
    } else if step.CreateRowStep? || step.UpdateRowStep? || step.DeleteRowStep? {
      RowStepStaysHome(env, s, step);
    } else {
      TableStepStaysHome(env, s, step);
    }
  }
}
