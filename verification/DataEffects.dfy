/**
 What the handlers of the data layer answer and change, in terms of the request
 and the store before and after: for each answer when it is given, and for each
 accepted request what is different afterwards and what is not.
 */
module DataEffects {
  import opened Common
  import opened Text
  import opened JsonValue
  import opened Schema
  import opened SchemaEvolution
  import opened DataStore

  // --- Who may do what ---------------------------------------------------------------

  /** What a rule lets a caller do; rows without an owner are everybody's. */
  ghost predicate RuleLets(rule: string, claims: Claims, owner: Option<string>) {
    match rule {
      case "public" => true
      case "authenticated" => true
      case "admin" => claims.isAdmin
      case "owner" => owner == None || owner == Some(claims.sub)
      case _ => false
    }
  }

  /** What a mode lets a caller who is no administrator do with a single row. */
  ghost predicate ModeLets(mode: string, claims: Claims, owner: Option<string>) {
    (mode == "owner_private" && owner == Some(claims.sub)) || mode == "authenticated_shared_rw"
  }

  ghost predicate RowLets(rule: Option<string>, mode: string, claims: Claims, owner: Option<string>) {
    claims.isAdmin || (if rule.Some? then RuleLets(rule.value, claims, owner) else ModeLets(mode, claims, owner))
  }

  ghost predicate TableLets(rule: Option<string>, mode: string, claims: Claims) {
    if rule.Some? then RuleLets(rule.value, claims, None)
    else (mode == "admin_only" && claims.isAdmin) || mode in {"owner_private", "authenticated_shared_rw"}
  }

  /** Each kind of access to a row goes by its own rule, and by the mode only where there is none. */
  lemma AccessByOwnRule(claims: Claims, mode: string, rules: Rules, owner: Option<string>)
    ensures
      var policy := Policy(mode, Some(rules));
      && (CanAccessRow(claims, policy, owner, Read) <==> RowLets(rules.read, mode, claims, owner))
      && (CanAccessRow(claims, policy, owner, Update) <==> RowLets(rules.update, mode, claims, owner))
      && (CanAccessRow(claims, policy, owner, Delete) <==> RowLets(rules.delete, mode, claims, owner))
      && (CanWriteTable(claims, policy) <==> TableLets(rules.create, mode, claims))
    ensures
      var policy := Policy(mode, None);
      && (forall access :: CanAccessRow(claims, policy, owner, access) <==> RowLets(None, mode, claims, owner))
      && (CanWriteTable(claims, policy) <==> TableLets(None, mode, claims))
  {
  }

  /** New rows belong to their creator exactly where the policy has a use for owners. */
  lemma NewRowOwner(claims: Claims, policy: Policy)
    ensures
      OwnerForNewRow(claims, policy) ==
      if policy.rules.Some? && policy.rules.value.create.Some? then
        if policy.rules.value.create.value in {"owner", "authenticated"} then Some(claims.sub) else None
      else if policy.mode in {"owner_private", "authenticated_shared_rw"} then Some(claims.sub)
      else None
  {
  }

  // --- Values ---------------------------------------------------------------------------

  /** Which values a field takes, type by type. */
  lemma ValuesByType(rfc3339: string -> bool, spec: FieldSpec, v: Json)
    ensures
      spec.fieldType == "string" ==>
        (ValidFieldValue(rfc3339, spec, v) <==>
         v.Str? && (spec.maxLength.None? || Utf8Length(v.s) <= spec.maxLength.value))
    ensures
      spec.fieldType == "integer" ==>
        (ValidFieldValue(rfc3339, spec, v) <==>
         v.Int? && -9_223_372_036_854_775_808 <= v.i <= 9_223_372_036_854_775_807)
    ensures spec.fieldType == "number" ==> (ValidFieldValue(rfc3339, spec, v) <==> v.Int? || v.Float?)
    ensures spec.fieldType == "boolean" ==> (ValidFieldValue(rfc3339, spec, v) <==> v.Bool?)
    ensures spec.fieldType == "datetime" ==> (ValidFieldValue(rfc3339, spec, v) <==> v.Str? && rfc3339(v.s))
    ensures spec.fieldType == "json" ==> ValidFieldValue(rfc3339, spec, v)
    ensures spec.fieldType in {"relation", "file"} ==> (ValidFieldValue(rfc3339, spec, v) <==> v.Str? && v.s != "")
  {
  }

  lemma {:induction false} Utf8Bounds(s: string)
    ensures |s| <= Utf8Length(s) <= 4 * |s|
    ensures (forall i :: 0 <= i < |s| ==> s[i] < '\U{80}') ==> Utf8Length(s) == |s|
    ensures (forall i :: 0 <= i < |s| ==> '\U{80}' <= s[i] < '\U{800}') ==> Utf8Length(s) == 2 * |s|
    ensures (forall i :: 0 <= i < |s| ==> '\U{800}' <= s[i] < '\U{10000}') ==> Utf8Length(s) == 3 * |s|
    ensures (forall i :: 0 <= i < |s| ==> '\U{10000}' <= s[i]) ==> Utf8Length(s) == 4 * |s|
  {
    if s != "" {
      Utf8Bounds(s[1..]);
    }
  }

  /** Table names are short and made of lower-case letters, digits and underscores. */
  lemma TableNames(name: string)
    ensures
      ValidTableName(name) <==>
      && 1 <= |name| <= 64
      && forall i :: 0 <= i < |name| ==> 'a' <= name[i] <= 'z' || '0' <= name[i] <= '9' || name[i] == '_'
  {
    Utf8Bounds(name);
    if forall i :: 0 <= i < |name| ==> 'a' <= name[i] <= 'z' || '0' <= name[i] <= '9' || name[i] == '_' {
      assert forall i :: 0 <= i < |name| ==> name[i] < '\U{80}';
    }
  }

  /** What a field of a valid schema looks like. */
  ghost predicate GoodField(rfc3339: string -> bool, f: string, spec: FieldSpec) {
    && f != ""
    && (forall i :: 0 <= i < |f| ==> 'a' <= f[i] <= 'z' || '0' <= f[i] <= '9' || f[i] == '_')
    && (|| spec.fieldType in {"string", "integer", "number", "boolean", "datetime", "json"}
        || (spec.fieldType == "relation" && spec.relationTable.Some? && ValidTableName(Trim(spec.relationTable.value)))
        || (spec.fieldType == "file" && spec.fileBucket.Some? && Trim(spec.fileBucket.value) != ""))
    && (spec.default.Some? ==> ValidFieldValue(rfc3339, spec, spec.default.value))
  }

  lemma FieldRules(rfc3339: string -> bool, f: string, spec: FieldSpec)
    ensures
      GoodField(rfc3339, f, spec) <==>
      && IsName(f) && ValidFieldType(spec)
      && (spec.default.Some? ==> ValidFieldValue(rfc3339, spec, spec.default.value))
  {
  }

  /** Which schemas are valid: those with at least one field, all of whose fields are good. */
  lemma SchemaRules(rfc3339: string -> bool, schema: Schema)
    ensures
      ValidSchema(rfc3339, schema) <==>
      schema.Keys != {} && forall f :: f in schema ==> GoodField(rfc3339, f, schema[f])
  {
    assert schema == map[] <==> schema.Keys == {};
    forall f | f in schema
      ensures
        GoodField(rfc3339, f, schema[f]) <==>
        && IsName(f) && ValidFieldType(schema[f])
        && (schema[f].default.Some? ==> ValidFieldValue(rfc3339, schema[f], schema[f].default.value))
    {
      FieldRules(rfc3339, f, schema[f]);
    }
  }

  ghost predicate KnownRule(rule: Option<string>) {
    || rule.None? || rule.value == "public" || rule.value == "authenticated"
    || rule.value == "admin" || rule.value == "owner"
  }

  ghost predicate KnownRules(rules: Rules) {
    KnownRule(rules.create) && KnownRule(rules.read) && KnownRule(rules.update) && KnownRule(rules.delete)
  }

  /** Which policies are valid. */
  lemma PolicyRules(policy: Policy)
    ensures
      policy.mode in {"admin_only", "owner_private", "authenticated_shared_rw"} ==>
        (ValidPolicy(policy) <==> policy.rules.None? || KnownRules(policy.rules.value))
    ensures policy.mode == "custom" ==> (ValidPolicy(policy) <==> policy.rules.Some? && KnownRules(policy.rules.value))
    ensures
      ValidPolicy(policy) ==> policy.mode in {"admin_only", "owner_private", "authenticated_shared_rw", "custom"}
  {
    if policy.rules.Some? {
      RulesKnown(policy.rules.value);
    }
    assert "custom"[0] == 'c' && "admin_only"[0] == 'a' && "owner_private"[0] == 'o' && SHARED_RW[0] == 'a';
  }

  lemma RulesKnown(rules: Rules)
    ensures ValidRules(rules) <==> KnownRules(rules)
  {
    RuleKnown(rules.create);
    RuleKnown(rules.read);
    RuleKnown(rules.update);
    RuleKnown(rules.delete);
  }

  lemma RuleKnown(rule: Option<string>)
    ensures ValidRule(rule) <==> KnownRule(rule)
  {
  }

  /** What a schema makes of submitted data: refused, or completed by the defaults. */
  lemma NormalizeMeans(rfc3339: string -> bool, schema: Schema, data: Json)
    ensures
      Normalize(rfc3339, schema, data).Some? <==>
      && data.Obj?
      && (forall f :: f in data.fields ==> f in schema && ValidFieldValue(rfc3339, schema[f], data.fields[f]))
      && (forall f :: f in schema && schema[f].required && schema[f].default.None? ==> f in data.fields)
    ensures
      Normalize(rfc3339, schema, data).Some? ==>
        var row := Normalize(rfc3339, schema, data).value;
        && (forall f :: f in data.fields ==> f in row && row[f] == data.fields[f])
        && (forall f :: f in schema && f !in data.fields && schema[f].default.Some? ==>
              f in row && row[f] == schema[f].default.value)
        && (forall f :: f in row ==> f in schema && (f in data.fields || schema[f].default.Some?))
  {
  }

  /** Which changes of schema the evolution check lets pass. */
  lemma EvolutionRules(existing: Schema, updated: Schema, rowCount: nat)
    ensures rowCount == 0 ==> EvolutionAccepted(existing, updated, rowCount)
    ensures
      rowCount > 0 ==>
        (EvolutionAccepted(existing, updated, rowCount) <==>
         && (forall f :: f in existing ==> f in updated && updated[f].fieldType == existing[f].fieldType)
         && (forall f :: f in updated && f !in existing && updated[f].required ==> updated[f].default.Some?))
  {
  }

  // --- Tables ---------------------------------------------------------------------------

  /** The two stores have the same tables but for one key. */
  ghost predicate OnlyTable(s: Store, after: Store, key: TableKey) {
    forall k :: k != key ==>
      (k in after.tables <==> k in s.tables) && (k in s.tables ==> after.tables[k] == s.tables[k])
  }

  /** The log names the actor afterwards, if the actor exists, and whom it named before. */
  ghost predicate OnlyActorAudited(s: Store, after: Store, claims: Claims) {
    after.users == s.users && after.audited == if claims.sub in s.users then s.audited + {claims.sub} else s.audited
  }

  lemma CreateTableEffect(
    rfc3339: string -> bool, s: Store, claims: Claims, name: string, displayName: string,
    schema: Schema, policy: Policy, id: string, now: string)
    ensures
      var (after, response) := CreateTable(rfc3339, s, claims, name, displayName, schema, policy, id, now);
      var key := TableKey(claims.app, Lower(Trim(name)));
      && (response == Forbidden <==> !claims.isAdmin)
      && (response == BadRequest <==>
            && claims.isAdmin
            && !(ValidTableName(key.name) && Trim(displayName) != ""
                 && ValidSchema(rfc3339, schema) && ValidPolicy(policy)))
      && response in {Forbidden, BadRequest, Conflict, Created}
      && (response != Created ==> after == s)
      && (response == Conflict ==>
            key in s.tables || claims.sub !in s.users || exists k :: k in s.tables && s.tables[k].id == id)
      && (response == Created ==>
            && key !in s.tables && OnlyTable(s, after, key) && after.rows == s.rows
            && key in after.tables && after.tables[key] == Table(id, Trim(displayName), schema, policy, claims.sub, now)
            && OnlyActorAudited(s, after, claims))
  {
  }

  lemma UpdateTableEffect(
    rfc3339: string -> bool, s: Store, claims: Claims, name: string,
    displayName: Option<string>, schema: Option<Schema>, policy: Option<Policy>)
    ensures
      var (after, response) := UpdateTable(rfc3339, s, claims, name, displayName, schema, policy);
      var key := TableKey(claims.app, Lower(Trim(name)));
      && (response == Forbidden <==> !claims.isAdmin)
      && (response == NotFound <==> claims.isAdmin && key !in s.tables)
      && response in {Forbidden, NotFound, BadRequest, Okay}
      && (response != Okay ==> after == s)
      && (claims.isAdmin && key in s.tables ==>
            var t := s.tables[key];
            var schema' := if schema.Some? then schema.value else t.schema;
            var policy' := if policy.Some? then policy.value else t.policy;
            response == Okay <==>
            && Trim(if displayName.Some? then displayName.value else t.displayName) != ""
            && ValidSchema(rfc3339, schema') && ValidPolicy(policy')
            && EvolutionAccepted(t.schema, schema', |set r | r in s.rows && s.rows[r].tableId == t.id|)
            && forall r :: r in s.rows && s.rows[r].tableId == t.id ==> Conforms(rfc3339, schema', s.rows[r].data))
      && (response == Okay ==>
            && key in s.tables && OnlyTable(s, after, key) && after.rows == s.rows && key in after.tables
            && after.tables[key].id == s.tables[key].id && after.tables[key].createdBy == s.tables[key].createdBy
            && after.tables[key].createdAt == s.tables[key].createdAt
            && after.tables[key].schema == (if schema.Some? then schema.value else s.tables[key].schema)
            && after.tables[key].policy == (if policy.Some? then policy.value else s.tables[key].policy)
            && after.tables[key].displayName ==
               Trim(if displayName.Some? then displayName.value else s.tables[key].displayName)
            && OnlyActorAudited(s, after, claims))
  {
  }

  /** No row of the table id is left, and all other rows are as before. */
  ghost predicate RowsGone(s: Store, after: Store, tableId: string) {
    && (forall r :: r in after.rows ==> r in s.rows && after.rows[r] == s.rows[r] && after.rows[r].tableId != tableId)
    && (forall r :: r in s.rows && s.rows[r].tableId != tableId ==> r in after.rows)
  }

  lemma DeleteTableEffect(s: Store, claims: Claims, name: string)
    ensures
      var (after, response) := DeleteTable(s, claims, name);
      var key := TableKey(claims.app, Lower(Trim(name)));
      && (response == Forbidden <==> !claims.isAdmin)
      && (response == NotFound <==> claims.isAdmin && key !in s.tables)
      && response in {Forbidden, NotFound, Okay}
      && (response != Okay ==> after == s)
      && (response == Okay ==>
            && key in s.tables && key !in after.tables && OnlyTable(s, after, key)
            && RowsGone(s, after, s.tables[key].id) && OnlyActorAudited(s, after, claims))
  {
  }

  // --- Rows -----------------------------------------------------------------------------

  /** The row is one of the table the request names. */
  ghost predicate RowThere(s: Store, claims: Claims, name: string, id: string) {
    var key := TableKey(claims.app, Lower(Trim(name)));
    key in s.tables && id in s.rows && s.rows[id].tableId == s.tables[key].id
  }

  lemma CreateRowAnswers(
    rfc3339: string -> bool, s: Store, claims: Claims, name: string, data: Json, quota: bool, id: string, now: string)
    ensures
      var (after, response) := CreateRow(rfc3339, s, claims, name, data, quota, id, now);
      var key := TableKey(claims.app, Lower(Trim(name)));
      && (response == NotFound <==> key !in s.tables)
      && response in {NotFound, Forbidden, BadRequest, ServerError, Created}
      && (response != Created ==> after == s)
      && (key in s.tables ==>
            var t := s.tables[key];
            var owner := OwnerForNewRow(claims, t.policy);
            && (response == Forbidden <==> !(CanWriteTable(claims, t.policy) && quota))
            && (response == BadRequest <==>
                  CanWriteTable(claims, t.policy) && quota
                  && !(data.Obj? && Conforms(rfc3339, t.schema, data.fields)))
            && (response == Created <==>
                  && CanWriteTable(claims, t.policy) && quota && data.Obj? && Conforms(rfc3339, t.schema, data.fields)
                  && id !in s.rows && (owner.Some? ==> owner.value in s.users))
            && (response == Created ==>
                  && id in after.rows && after.rows[id].app == claims.app && after.rows[id].owner == owner
                  && after.rows[id].createdAt == now && after.rows[id].updatedAt == now
                  && OnlyActorAudited(s, after, claims)))
  {
  }

  lemma UpdateRowAnswers(
    rfc3339: string -> bool, s: Store, claims: Claims, name: string, id: string, data: Json, now: string)
    ensures
      var (after, response) := UpdateRow(rfc3339, s, claims, name, id, data, now);
      && (response == NotFound <==> !RowThere(s, claims, name, id))
      && response in {NotFound, Forbidden, BadRequest, Okay}
      && (response != Okay ==> after == s)
      && (RowThere(s, claims, name, id) ==>
            var policy := s.tables[TableKey(claims.app, Lower(Trim(name)))].policy;
            response == Forbidden <==> !CanAccessRow(claims, policy, s.rows[id].owner, Update))
  {
  }

  /** Deleting a row removes it and nothing else; any other answer changes nothing. */
  lemma DeleteRowEffect(s: Store, claims: Claims, name: string, id: string)
    ensures
      var (after, response) := DeleteRow(s, claims, name, id);
      && (response == NotFound <==> !RowThere(s, claims, name, id))
      && response in {NotFound, Forbidden, Okay}
      && (RowThere(s, claims, name, id) ==>
            var policy := s.tables[TableKey(claims.app, Lower(Trim(name)))].policy;
            response == Forbidden <==> !CanAccessRow(claims, policy, s.rows[id].owner, Delete))
      && (response == Okay ==> id !in after.rows && OnlyRow(s, after, id) && OnlyActorAudited(s, after, claims))
      && (response != Okay ==> after == s)
  {
  }

  /** Deleting a user takes the tables the user created, and the user's name off all other rows. */
  lemma DeleteUserEffect(s: Store, claims: Claims, user: string, found: bool, elsewhere: bool)
    ensures
      var (after, response) := DeleteUser(s, claims, user, found, elsewhere);
      && (response == Okay <==>
            claims.isAdmin && claims.sub != user && found && user in s.users && user !in s.audited && !elsewhere)
      && (response != Okay ==> after == s)
      && (response == Okay ==>
            && after.users == s.users - {user} && after.audited == s.audited
            && (forall k :: k in after.tables <==> k in s.tables && s.tables[k].createdBy != user)
            && (forall k :: k in after.tables ==> after.tables[k] == s.tables[k])
            && (forall r :: r in after.rows ==>
                  && r in s.rows && after.rows[r] == s.rows[r].(owner := after.rows[r].owner)
                  && after.rows[r].owner == if s.rows[r].owner == Some(user) then None else s.rows[r].owner))
  {
  }

  // --- Applications are separate -------------------------------------------------------------

  /** Tables and rows of other applications are as before. */
  ghost predicate OthersUntouched(s: Store, after: Store, app: string) {
    && (forall k: TableKey :: k.app != app ==>
          (k in after.tables <==> k in s.tables) && (k in s.tables ==> after.tables[k] == s.tables[k]))
    && (forall r :: r in s.rows && s.rows[r].app != app ==> r in after.rows && after.rows[r] == s.rows[r])
    && (forall r :: r in after.rows && after.rows[r].app != app ==> r in s.rows && s.rows[r] == after.rows[r])
  }

  lemma TableAtHome(s: Store, after: Store, key: TableKey)
    requires OnlyTable(s, after, key) && after.rows == s.rows
    ensures OthersUntouched(s, after, key.app)
  {
  }

  lemma RowAtHome(s: Store, after: Store, id: string, app: string)
    requires OnlyRow(s, after, id) && (id in s.rows ==> s.rows[id].app == app)
    requires id in after.rows ==> after.rows[id].app == app
    ensures OthersUntouched(s, after, app)
  {
  }

  /** The rows of a table belong to its application. */
  lemma RowsAtHome(rfc3339: string -> bool, s: Store, key: TableKey, r: string)
    requires Inv(rfc3339, s) && key in s.tables && r in s.rows && s.rows[r].tableId == s.tables[key].id
    ensures s.rows[r].app == key.app
  {
    assert RowOk(rfc3339, s, s.rows[r]);
  }

  lemma CreateTableStaysHome(
    rfc3339: string -> bool, s: Store, claims: Claims, name: string, displayName: string,
    schema: Schema, policy: Policy, id: string, now: string)
    ensures
      OthersUntouched(s, CreateTable(rfc3339, s, claims, name, displayName, schema, policy, id, now).0, claims.app)
  {
    CreateTableEffect(rfc3339, s, claims, name, displayName, schema, policy, id, now);
    var (after, response) := CreateTable(rfc3339, s, claims, name, displayName, schema, policy, id, now);
    if response == Created {
      TableAtHome(s, after, TableKey(claims.app, Lower(Trim(name))));
    }
  }

  lemma UpdateTableStaysHome(
    rfc3339: string -> bool, s: Store, claims: Claims, name: string,
    displayName: Option<string>, schema: Option<Schema>, policy: Option<Policy>)
    ensures OthersUntouched(s, UpdateTable(rfc3339, s, claims, name, displayName, schema, policy).0, claims.app)
  {
    UpdateTableEffect(rfc3339, s, claims, name, displayName, schema, policy);
    var (after, response) := UpdateTable(rfc3339, s, claims, name, displayName, schema, policy);
    if response == Okay {
      TableAtHome(s, after, TableKey(claims.app, Lower(Trim(name))));
    }
  }

  lemma DeleteTableStaysHome(rfc3339: string -> bool, s: Store, claims: Claims, name: string)
    requires Inv(rfc3339, s)
    ensures OthersUntouched(s, DeleteTable(s, claims, name).0, claims.app)
  {
    var key := KeyOf(claims, name);
    if key in s.tables {
      forall r | r in s.rows && s.rows[r].tableId == s.tables[key].id ensures s.rows[r].app == claims.app {
        RowsAtHome(rfc3339, s, key, r);
      }
    }
  }

  lemma CreateRowStaysHome(
    rfc3339: string -> bool, s: Store, claims: Claims, name: string, data: Json, quota: bool, id: string, now: string)
    requires Inv(rfc3339, s)
    ensures OthersUntouched(s, CreateRow(rfc3339, s, claims, name, data, quota, id, now).0, claims.app)
  {
    CreateRowAnswers(rfc3339, s, claims, name, data, quota, id, now);
    var (after, response) := CreateRow(rfc3339, s, claims, name, data, quota, id, now);
    if response == Created {
      CreateRowEffect(rfc3339, s, claims, name, data, quota, id, now);
      RowAtHome(s, after, id, claims.app);
    }
  }

  lemma UpdateRowStaysHome(
    rfc3339: string -> bool, s: Store, claims: Claims, name: string, id: string, data: Json, now: string)
    requires Inv(rfc3339, s)
    ensures OthersUntouched(s, UpdateRow(rfc3339, s, claims, name, id, data, now).0, claims.app)
  {
    UpdateRowAnswers(rfc3339, s, claims, name, id, data, now);
    var (after, response) := UpdateRow(rfc3339, s, claims, name, id, data, now);
    if response == Okay {
      UpdateRowEffect(rfc3339, s, claims, name, id, data, now);
      RowsAtHome(rfc3339, s, TableKey(claims.app, Lower(Trim(name))), id);
      RowAtHome(s, after, id, claims.app);
    }
  }

  lemma DeleteRowStaysHome(rfc3339: string -> bool, s: Store, claims: Claims, name: string, id: string)
    requires Inv(rfc3339, s)
    ensures OthersUntouched(s, DeleteRow(s, claims, name, id).0, claims.app)
  {
    DeleteRowEffect(s, claims, name, id);
    var (after, response) := DeleteRow(s, claims, name, id);
    if response == Okay {
      RowsAtHome(rfc3339, s, TableKey(claims.app, Lower(Trim(name))), id);
      RowAtHome(s, after, id, claims.app);
    }
  }
}
