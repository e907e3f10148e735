/**
 Which runs of the data layer keep every table reproducible from its own
 export, step by step and exactly, and runs after which a table is not.
 */
module RoundTrip {
  import opened Common
  import opened Text
  import opened JsonValue
  import opened Schema
  import opened SchemaEvolution
  import opened DataStore
  import opened TableImport
  import opened TableExport
  import opened DataApi

  ghost predicate RowTidy(tables: map<TableKey, Table>, row: StoredRow) {
    forall k :: k in tables && tables[k].id == row.tableId ==> RowFits(tables[k], row)
  }

  /** Every row of every table fits the table's current definition. */
  ghost predicate Tidy(s: Store) {
    forall r :: r in s.rows ==> RowTidy(s.tables, s.rows[r])
  }

  // --- What a step must not do -------------------------------------------------------

  /** The stored rows of the table fit its new definition. */
  ghost predicate FitsRows(s: Store, t: Table) {
    forall r :: r in s.rows && s.rows[r].tableId == t.id ==> RowFits(t, s.rows[r])
  }

  /** The row belongs to the user and to the table under `k`, and stays when the user goes. */
  ghost predicate KeepsOwned(s: Store, row: StoredRow, k: TableKey, user: string)
    requires k in s.tables
  {
    s.tables[k].id == row.tableId && row.owner == Some(user) && !FallsWith(s, row, user)
  }

  /** No table that must have owners would keep a row of the user. */
  ghost predicate NotNeeded(s: Store, user: string) {
    forall r, k :: r in s.rows && k in s.tables && KeepsOwned(s, s.rows[r], k, user) ==>
      OwnerNeedOf(s.tables[k].policy) != Required
  }

  /** A new row gets no owner, or one whose id is not blank. */
  predicate NamedOwner(claims: Claims, policy: Policy) {
    OwnerForNewRow(claims, policy).Some? ==> Trim(claims.sub) != ""
  }

  /**
   The steps after which all rows still fit: a new row is not owned by a blank
   id, a new definition suits the rows it finds, and a deleted user owns nothing
   in a table that must have owners.
   */
  ghost predicate Steady(env: Env, s: Store, step: Step) {
    match step
    case CreateRowStep(claims, name, data, quota, id, now) =>
      CreateRow(env.rfc3339, s, claims, name, data, quota, id, now).1 == Created ==>
        NamedOwner(claims, s.tables[KeyOf(claims, name)].policy)
    case UpdateTableStep(claims, name, display, schema, policy) =>
      UpdateTable(env.rfc3339, s, claims, name, display, schema, policy).1 == Okay ==>
        FitsRows(s, Updated(s.tables[KeyOf(claims, name)], display, schema, policy))
    case ImportStep(claims, name, req, now) =>
      Restores(req) && !Replaces(req) && Import(env, s, claims, name, req, now).1 in {Created, Conflict} ==>
        KeyOf(claims, name) in s.tables && FitsRows(s, Effective(s.tables[KeyOf(claims, name)], req))
    case DeleteUserStep(claims, user, found, elsewhere) =>
      DeleteUser(s, claims, user, found, elsewhere).1 == Okay ==> NotNeeded(s, user)
    case _ => true
  }

  // --- Writes that keep rows fitting --------------------------------------------------

  lemma AuditTidy(s: Store, claims: Claims)
    ensures Tidy(Audited(s, claims)) <==> Tidy(s)
  {
    assert Audited(s, claims).rows == s.rows && Audited(s, claims).tables == s.tables;
  }

  lemma PutRowTidy(s: Store, key: TableKey, id: string, row: StoredRow)
    requires Tidy(s) && UniqueIds(s.tables) && key in s.tables && row.tableId == s.tables[key].id
    ensures Tidy(s.(rows := s.rows[id := row])) <==> RowFits(s.tables[key], row)
  {
    var after := s.(rows := s.rows[id := row]);
    if Tidy(after) {
      assert RowTidy(after.tables, after.rows[id]);
    }
    if RowFits(s.tables[key], row) {
      assert RowTidy(s.tables, row);
    }
  }

  lemma RedefineTidy(s: Store, key: TableKey, t: Table)
    requires Tidy(s) && key in s.tables && t.id == s.tables[key].id
    ensures Tidy(s.(tables := s.tables[key := t])) <==> FitsRows(s, t)
  {
    var tables := s.tables[key := t];
    if Tidy(s.(tables := tables)) {
      forall r | r in s.rows && s.rows[r].tableId == t.id ensures RowFits(t, s.rows[r]) {
        assert RowTidy(tables, s.rows[r]) && tables[key] == t;
      }
    }
    if FitsRows(s, t) {
      forall r | r in s.rows ensures RowTidy(tables, s.rows[r]) {
        assert RowTidy(s.tables, s.rows[r]);
      }
    }
  }

  lemma FewerStayTidy(s: Store, less: Store)
    requires Tidy(s)
    requires forall k :: k in less.tables ==> k in s.tables && less.tables[k] == s.tables[k]
    requires forall r :: r in less.rows ==> r in s.rows && less.rows[r] == s.rows[r]
    ensures Tidy(less)
  {
    forall r | r in less.rows ensures RowTidy(less.tables, less.rows[r]) {
      assert RowTidy(s.tables, s.rows[r]);
    }
  }

  /** A new table has an id that no row refers to. */
  lemma FreshTableTidy(rfc3339: string -> bool, s: Store, key: TableKey, t: Table)
    requires Inv(rfc3339, s) && Tidy(s) && forall k :: k in s.tables ==> s.tables[k].id != t.id
    ensures Tidy(s.(tables := s.tables[key := t]))
  {
    forall r | r in s.rows ensures RowTidy(s.tables[key := t], s.rows[r]) {
      assert RowOk(rfc3339, s, s.rows[r]) && RowTidy(s.tables, s.rows[r]);
    }
  }

  lemma NewTableTidy(
    rfc3339: string -> bool, s: Store, claims: Claims, name: string, displayName: string,
    schema: Schema, policy: Policy, id: string, now: string)
    requires Inv(rfc3339, s) && Tidy(s)
    ensures Tidy(CreateTable(rfc3339, s, claims, name, displayName, schema, policy, id, now).0)
  {
    if CreateTable(rfc3339, s, claims, name, displayName, schema, policy, id, now).1 == Created {
      var t := Table(id, Trim(displayName), schema, policy, claims.sub, now);
      FreshTableTidy(rfc3339, s, KeyOf(claims, name), t);
      AuditTidy(s.(tables := s.tables[KeyOf(claims, name) := t]), claims);
    }
  }

  lemma UpdateTableTidy(
    rfc3339: string -> bool, s: Store, claims: Claims, name: string,
    display: Option<string>, schema: Option<Schema>, policy: Option<Policy>)
    requires Tidy(s) && UpdateTable(rfc3339, s, claims, name, display, schema, policy).1 == Okay
    ensures
      Tidy(UpdateTable(rfc3339, s, claims, name, display, schema, policy).0) <==>
      FitsRows(s, Updated(s.tables[KeyOf(claims, name)], display, schema, policy))
  {
    var key := KeyOf(claims, name);
    RedefineTidy(s, key, Updated(s.tables[key], display, schema, policy));
    AuditTidy(s.(tables := s.tables[key := Updated(s.tables[key], display, schema, policy)]), claims);
  }

  lemma RemovalTidy(s: Store, claims: Claims, name: string, id: string)
    requires Tidy(s)
    ensures Tidy(DeleteTable(s, claims, name).0) && Tidy(DeleteRow(s, claims, name, id).0)
  {
    FewerStayTidy(s, DeleteTable(s, claims, name).0);
    FewerStayTidy(s, DeleteRow(s, claims, name, id).0);
  }

  /** A normalised row with a kept owner fits. */
  lemma NormalRowFits(rfc3339: string -> bool, t: Table, data: Json, row: StoredRow)
    requires ValidSchema(rfc3339, t.schema) && Normalize(rfc3339, t.schema, data) == Some(row.data)
    ensures RowFits(t, row) <==> OwnerFits(t.policy, row.owner)
  {
    NormalizeIdempotent(rfc3339, t.schema, data);
    NormalMeansDefaultsPresent(rfc3339, t.schema, row.data);
  }

  lemma NewOwnerFits(claims: Claims, policy: Policy)
    requires ValidPolicy(policy)
    ensures OwnerFits(policy, OwnerForNewRow(claims, policy)) <==> NamedOwner(claims, policy)
  {
  }

  lemma CreateRowTidy(
    rfc3339: string -> bool, s: Store, claims: Claims, name: string, data: Json, quota: bool, id: string, now: string)
    requires Inv(rfc3339, s) && Tidy(s) && CreateRow(rfc3339, s, claims, name, data, quota, id, now).1 == Created
    ensures
      Tidy(CreateRow(rfc3339, s, claims, name, data, quota, id, now).0) <==>
      NamedOwner(claims, s.tables[KeyOf(claims, name)].policy)
  {
    var key := KeyOf(claims, name);
    var t := s.tables[key];
    var row := StoredRow(
      claims.app, t.id, OwnerForNewRow(claims, t.policy), Normalize(rfc3339, t.schema, data).value, now, now);
    assert TableOk(rfc3339, key, t);
    NormalRowFits(rfc3339, t, data, row);
    NewOwnerFits(claims, t.policy);
    PutRowTidy(s, key, id, row);
    AuditTidy(s.(rows := s.rows[id := row]), claims);
  }

  lemma UpdateRowTidy(
    rfc3339: string -> bool, s: Store, claims: Claims, name: string, id: string, data: Json, now: string)
    requires Inv(rfc3339, s) && Tidy(s)
    ensures Tidy(UpdateRow(rfc3339, s, claims, name, id, data, now).0)
  {
    if UpdateRow(rfc3339, s, claims, name, id, data, now).1 == Okay {
      var key := KeyOf(claims, name);
      var t, before := s.tables[key], s.rows[id];
      var row := before.(data := Normalize(rfc3339, t.schema, Obj(before.data + data.fields)).value, updatedAt := now);
      assert TableOk(rfc3339, key, t) && RowTidy(s.tables, before);
      NormalRowFits(rfc3339, t, Obj(before.data + data.fields), row);
      PutRowTidy(s, key, id, row);
      AuditTidy(s.(rows := s.rows[id := row]), claims);
    }
  }

  lemma DeleteUserTidy(s: Store, user: string)
    requires Tidy(s)
    ensures Tidy(WithoutUser(s, user)) <==> NotNeeded(s, user)
  {
    var after := WithoutUser(s, user);
    if NotNeeded(s, user) {
      forall r | r in after.rows ensures RowTidy(after.tables, after.rows[r]) {
        assert RowTidy(s.tables, s.rows[r]);
      }
    }
    if Tidy(after) {
      forall r, k | r in s.rows && k in s.tables && KeepsOwned(s, s.rows[r], k, user)
        ensures OwnerNeedOf(s.tables[k].policy) != Required
      {
        assert RowTidy(after.tables, after.rows[r]) && k in after.tables;
      }
    }
  }

  // --- Imports --------------------------------------------------------------------------

  lemma PreparedFits(env: Env, app: string, t: Table, row: ImportRow, now: string)
    requires ValidSchema(env.rfc3339, t.schema) && ValidPolicy(t.policy) && RowPasses(env.rfc3339, t, row)
    ensures RowFits(t, Prepared(env.rfc3339, app, t, row, now))
  {
    var made := Prepared(env.rfc3339, app, t, row, now);
    NormalRowFits(env.rfc3339, t, row.data, made);
    ImportOwnerIdempotent(t.policy, row.owner);
    OwnerKeptIffFits(t.policy, made.owner);
  }

  lemma {:induction false} InsertLoopTidy(env: Env, s: Store, key: TableKey, rows: seq<ImportRow>, i: nat, now: string)
    requires Inv(env.rfc3339, s) && Tidy(s) && key in s.tables && i <= |rows|
    ensures Tidy(InsertFrom(env, s, key, rows, i, now).0)
    decreases |rows| - i
  {
    if i < |rows| && RowPasses(env.rfc3339, s.tables[key], rows[i]) {
      var t := s.tables[key];
      var row := Prepared(env.rfc3339, key.app, t, rows[i], now);
      var id := IdFor(env, rows, i);
      if CanInsert(s, id, row.owner) {
        assert TableOk(env.rfc3339, key, t);
        NormalizeIdempotent(env.rfc3339, t.schema, rows[i].data);
        PreparedFits(env, key.app, t, rows[i], now);
        PutRowKeepsInv(env.rfc3339, s, key, id, row);
        PutRowTidy(s, key, id, row);
        InsertLoopTidy(env, s.(rows := s.rows[id := row]), key, rows, i + 1, now);
      }
    }
  }

  lemma InsertLoopTidyIff(env: Env, s: Store, key: TableKey, rows: seq<ImportRow>, now: string)
    requires Inv(env.rfc3339, s) && key in s.tables
    ensures Tidy(InsertFrom(env, s, key, rows, 0, now).0) <==> Tidy(s)
  {
    var after := InsertFrom(env, s, key, rows, 0, now).0;
    if Tidy(s) {
      InsertLoopTidy(env, s, key, rows, 0, now);
    }
    if Tidy(after) {
      forall r | r in s.rows ensures RowTidy(s.tables, s.rows[r]) {
        InsertLoopKeepsRows(env, s, key, rows, 0, now, r);
        assert RowTidy(after.tables, after.rows[r]);
      }
    }
  }

  lemma ClearedFits(env: Env, s: Store, key: TableKey, t: Table)
    requires Inv(env.rfc3339, s) && key in s.tables && t.id == s.tables[key].id
    ensures FitsRows(Cleared(s, key), t)
  {
    ClearedIsEmpty(env.rfc3339, s, key);
    assert forall r :: r in Cleared(s, key).rows ==> r !in RowsOf(Cleared(s, key), t.id);
  }

  lemma ReadyStoreTidy(env: Env, s: Store, key: TableKey, req: ImportRequest)
    requires Inv(env.rfc3339, s) && Tidy(s) && key in s.tables && ReadyStore(env, s, key, req).Some?
    ensures
      Tidy(ReadyStore(env, s, key, req).value) <==>
      (Restores(req) && !Replaces(req) ==> FitsRows(s, Effective(s.tables[key], req)))
  {
    var base := Base(s, key, req);
    FewerStayTidy(s, base);
    if Restores(req) {
      var t := Restored(s.tables[key], req.table.value);
      RedefineTidy(base, key, t);
      if Replaces(req) {
        ClearedFits(env, s, key, t);
      }
    }
  }

  lemma ImportTidy(env: Env, s: Store, claims: Claims, name: string, req: ImportRequest, now: string)
    requires Inv(env.rfc3339, s) && Tidy(s)
    ensures
      Tidy(Import(env, s, claims, name, req, now).0) <==>
      (Restores(req) && !Replaces(req) && Import(env, s, claims, name, req, now).1 in {Created, Conflict} ==>
         KeyOf(claims, name) in s.tables && FitsRows(s, Effective(s.tables[KeyOf(claims, name)], req)))
  {
    var key := KeyOf(claims, name);
    OnlyInsertsWrite(env, s, claims, name, req, now);
    if Import(env, s, claims, name, req, now).1 in {Created, Conflict} {
      ReadyStoreKeepsInv(env, s, key, req);
      ReadyStoreTidy(env, s, key, req);
      ReadyRowsPass(env, s, key, req);
      ImportRunsLoop(env, s, claims, name, req, now);
      InsertLoopTidyIff(env, ReadyStore(env, s, key, req).value, key, req.rows, now);
    }
  }

  // --- New definitions, judged by the definitions alone ---------------------------------------

  /** Every field that gets a default was one that no row could lack. */
  predicate NoNewDefault(former: Schema, updated: Schema) {
    forall f :: f in updated && updated[f].default.Some? ==>
      f in former && (former[f].default.Some? || former[f].required)
  }

  /** Owners stay as they are needed, or become optional. */
  predicate OwnersSuit(former: Policy, updated: Policy) {
    OwnerNeedOf(updated) == OwnerNeedOf(former) || OwnerNeedOf(updated) == Optional
  }

  /** Every row that can be stored and fits one definition fits the other. */
  ghost predicate FitCarriesOver(rfc3339: string -> bool, former: Table, updated: Table) {
    forall row: StoredRow ::
      Conforms(rfc3339, former.schema, row.data) && RowFits(former, row) ==> RowFits(updated, row)
  }

  /** A row with every field but perhaps one, and an owner as the policy needs it. */
  function SampleStored(t: Table, stamp: string, without: set<string>, owner: Option<string>): StoredRow {
    StoredRow("", t.id, owner, SampleRow(t.schema, stamp) - without, "", "")
  }

  lemma SampleOwners()
    ensures Trim("x") == "x"
  {
    TrimNoSpace("x");
  }

  lemma SampleFits(rfc3339: string -> bool, t: Table, stamp: string, without: set<string>, owner: Option<string>)
    requires ValidSchema(rfc3339, t.schema) && rfc3339(stamp) && OwnerFits(t.policy, owner)
    requires forall f :: f in without && f in t.schema ==> t.schema[f].default.None? && !t.schema[f].required
    ensures Conforms(rfc3339, t.schema, SampleStored(t, stamp, without, owner).data)
    ensures RowFits(t, SampleStored(t, stamp, without, owner))
  {
    SampleRowConforms(rfc3339, t.schema, stamp);
  }

  lemma NewDefaultUnfits(rfc3339: string -> bool, former: Table, updated: Table, stamp: string)
    requires ValidSchema(rfc3339, former.schema) && rfc3339(stamp) && !NoNewDefault(former.schema, updated.schema)
    ensures !FitCarriesOver(rfc3339, former, updated)
  {
    var f :| f in updated.schema && updated.schema[f].default.Some?
      && !(f in former.schema && (former.schema[f].default.Some? || former.schema[f].required));
    SampleOwners();
    var owner := if OwnerNeedOf(former.policy) == Required then Some("x") else None;
    SampleFits(rfc3339, former, stamp, {f}, owner);
    assert !RowFits(updated, SampleStored(former, stamp, {f}, owner));
  }

  lemma UnsuitableOwnersUnfit(rfc3339: string -> bool, former: Table, updated: Table, stamp: string)
    requires ValidSchema(rfc3339, former.schema) && rfc3339(stamp) && !OwnersSuit(former.policy, updated.policy)
    ensures !FitCarriesOver(rfc3339, former, updated)
  {
    SampleOwners();
    var owner := if OwnerNeedOf(updated.policy) == Required then None else Some("x");
    SampleFits(rfc3339, former, stamp, {}, owner);
    assert !RowFits(updated, SampleStored(former, stamp, {}, owner));
  }

  /**
   A new definition suits all rows that the old one could have, if and only if
   no field newly gets a default and owners are needed as before or optional.
   */
  lemma FitCarriesOverIff(rfc3339: string -> bool, former: Table, updated: Table, stamp: string)
    requires ValidSchema(rfc3339, former.schema) && rfc3339(stamp)
    ensures
      FitCarriesOver(rfc3339, former, updated) <==>
      NoNewDefault(former.schema, updated.schema) && OwnersSuit(former.policy, updated.policy)
  {
    if !NoNewDefault(former.schema, updated.schema) {
      NewDefaultUnfits(rfc3339, former, updated, stamp);
    } else if !OwnersSuit(former.policy, updated.policy) {
      UnsuitableOwnersUnfit(rfc3339, former, updated, stamp);
    }
  }

  lemma SuitedRowFits(rfc3339: string -> bool, former: Table, updated: Table, row: StoredRow)
    requires NoNewDefault(former.schema, updated.schema) && OwnersSuit(former.policy, updated.policy)
    requires Conforms(rfc3339, former.schema, row.data) && RowFits(former, row)
    ensures RowFits(updated, row)
  {
  }

  /** Such a change of definition is steady, whatever rows are stored. */
  lemma SuitedDefinitionFitsRows(rfc3339: string -> bool, s: Store, key: TableKey, updated: Table)
    requires Inv(rfc3339, s) && Tidy(s) && key in s.tables && updated.id == s.tables[key].id
    requires NoNewDefault(s.tables[key].schema, updated.schema) && OwnersSuit(s.tables[key].policy, updated.policy)
    ensures FitsRows(s, updated)
  {
    forall r | r in s.rows && s.rows[r].tableId == updated.id ensures RowFits(updated, s.rows[r]) {
      assert RowOk(rfc3339, s, s.rows[r]) && RowTidy(s.tables, s.rows[r]);
      SuitedRowFits(rfc3339, s.tables[key], updated, s.rows[r]);
    }
  }

  // --- Steps and runs -----------------------------------------------------------------------

  lemma RefusedRowChangesNothing(
    rfc3339: string -> bool, s: Store, claims: Claims, name: string, data: Json, quota: bool, id: string, now: string)
    requires CreateRow(rfc3339, s, claims, name, data, quota, id, now).1 != Created
    ensures CreateRow(rfc3339, s, claims, name, data, quota, id, now).0 == s
  {
  }

  lemma CreateRowTidyIff(env: Env, s: Store, step: Step)
    requires Inv(env.rfc3339, s) && Tidy(s) && step.CreateRowStep?
    ensures Tidy(Apply(env, s, step)) <==> Steady(env, s, step)
  {
    var CreateRowStep(claims, name, data, quota, id, now) := step;
    var (after, response) := CreateRow(env.rfc3339, s, claims, name, data, quota, id, now);
    assert Apply(env, s, step) == after;
    if response == Created {
      CreateRowTidy(env.rfc3339, s, claims, name, data, quota, id, now);
    } else {
      RefusedRowChangesNothing(env.rfc3339, s, claims, name, data, quota, id, now);
    }
  }

  lemma UpdateTableTidyIff(env: Env, s: Store, step: Step)
    requires Tidy(s) && step.UpdateTableStep?
    ensures Tidy(Apply(env, s, step)) <==> Steady(env, s, step)
  {
    var UpdateTableStep(claims, name, display, schema, policy) := step;
    if UpdateTable(env.rfc3339, s, claims, name, display, schema, policy).1 == Okay {
      UpdateTableTidy(env.rfc3339, s, claims, name, display, schema, policy);
    }
  }

  lemma ImportTidyIff(env: Env, s: Store, step: Step)
    requires Inv(env.rfc3339, s) && Tidy(s) && step.ImportStep?
    ensures Tidy(Apply(env, s, step)) <==> Steady(env, s, step)
  {
    ImportTidy(env, s, step.claims, step.name, step.req, step.now);
  }

  lemma UserStepTidyIff(env: Env, s: Store, step: Step)
    requires Tidy(s) && (step.AddUser? || step.DeleteUserStep?)
    ensures Tidy(Apply(env, s, step)) <==> Steady(env, s, step)
  {
    if step.DeleteUserStep? {
      DeleteUserTidy(s, step.user);
    } else {
      FewerStayTidy(s, Apply(env, s, step));
    }
  }

  lemma OtherStepTidy(env: Env, s: Store, step: Step)
    requires Inv(env.rfc3339, s) && Tidy(s)
    requires step.CreateTableStep? || step.DeleteTableStep? || step.UpdateRowStep? || step.DeleteRowStep?
    ensures Tidy(Apply(env, s, step))
  {
    match step
    case CreateTableStep(claims, name, display, schema, policy, id, now) =>
      NewTableTidy(env.rfc3339, s, claims, name, display, schema, policy, id, now);
    case DeleteTableStep(claims, name) => RemovalTidy(s, claims, name, "");
    case UpdateRowStep(claims, name, id, data, now) => UpdateRowTidy(env.rfc3339, s, claims, name, id, data, now);
    case DeleteRowStep(claims, name, id) => RemovalTidy(s, claims, name, id);
  }

  /** A step keeps all rows fitting if and only if it is steady. */
  lemma StepTidyIffSteady(env: Env, s: Store, step: Step)
    requires Inv(env.rfc3339, s) && Tidy(s)
    ensures Tidy(Apply(env, s, step)) <==> Steady(env, s, step)
  {
    if step.CreateRowStep? {
      CreateRowTidyIff(env, s, step);
    } else if step.UpdateTableStep? {
      UpdateTableTidyIff(env, s, step);
    } else if step.ImportStep? {
      ImportTidyIff(env, s, step);
    } else if step.AddUser? || step.DeleteUserStep? {
      UserStepTidyIff(env, s, step);
    } else {
      OtherStepTidy(env, s, step);
    }
  }

  ghost predicate SteadyRun(env: Env, steps: seq<Step>) {
    steps == [] || (SteadyRun(env, Init(steps)) && Steady(env, Run(env, Init(steps)), Last(steps)))
  }

  lemma {:induction false} SteadyRunTidy(env: Env, steps: seq<Step>)
    requires SteadyRun(env, steps)
    ensures Tidy(Run(env, steps))
  {
    if steps != [] {
      SteadyRunTidy(env, Init(steps));
      RunKeepsInv(env, Init(steps));
      StepTidyIffSteady(env, Run(env, Init(steps)), Last(steps));
    }
  }

  lemma TidyIsReproducible(s: Store, key: TableKey)
    requires Tidy(s) && key in s.tables
    ensures Reproducible(s, key)
  {
    assert forall r :: r in s.rows ==> RowTidy(s.tables, s.rows[r]);
  }

  /**
   After every steady run, exporting any table and importing the export in
   replace mode with checksum verification is accepted and reproduces all ids,
   owners and data.
   */
  lemma SteadyRunRoundTrips(
    env: Env, steps: seq<Step>, claims: Claims, name: string, restoreTable: Option<bool>, now: string)
    requires SteadyRun(env, steps) && ExportTable(env, Run(env, steps), claims, name).Some?
    ensures
      var s := Run(env, steps);
      var req := ReplaceWith(ExportTable(env, s, claims, name).value, restoreTable);
      var (after, response, n) := Import(env, s, claims, name, req, now);
      response == Created && SameContents(s, after)
  {
    var s, key := Run(env, steps), KeyOf(claims, name);
    RunKeepsInv(env, steps);
    SteadyRunTidy(env, steps);
    TidyIsReproducible(s, key);
    RoundTripExact(env, s, claims, name, restoreTable, now);
  }
}
