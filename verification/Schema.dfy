/**
 Table schemas, access policies and rows of the typed data layer: validation of
 definitions and values, and the normalisation every stored row goes through.
 `rfc3339` decides which texts are timestamps.
 */
module Schema {
  import opened Common
  import opened Text
  import opened JsonValue

  datatype FieldSpec = FieldSpec(
    fieldType: string,
    required: bool,
    maxLength: Option<nat>,
    default: Option<Json>,
    relationTable: Option<string>,
    fileBucket: Option<string>)

  type Schema = map<string, FieldSpec>
  type Row = map<string, Json>

  // --- Text rules --------------------------------------------------------------

  function Utf8Width(c: char): nat {
    if c < '\U{80}' then 1 else if c < '\U{800}' then 2 else if c < '\U{10000}' then 3 else 4
  }

  /** Length in bytes, which is what length limits count. */
  function Utf8Length(s: string): nat {
    if s == "" then 0 else Utf8Width(s[0]) + Utf8Length(s[1..])
  }

  predicate IsNameChar(c: char) {
    'a' <= c <= 'z' || '0' <= c <= '9' || c == '_'
  }

  predicate IsName(s: string) {
    s != "" && forall i :: 0 <= i < |s| ==> IsNameChar(s[i])
  }

  predicate ValidTableName(name: string) {
    IsName(name) && Utf8Length(name) <= 64
  }

  function LowerChar(c: char): char {
    if 'A' <= c <= 'Z' then (c as int + 32) as char else c
  }

  function Lower(s: string): (r: string)
    ensures |r| == |s|
  {
    seq(|s|, i requires 0 <= i < |s| => LowerChar(s[i]))
  }

  /** ASCII capitals become small letters, and no other character changes. */
  lemma LowerLetters(c: char)
    ensures 'A' <= c <= 'Z' ==> 'a' <= LowerChar(c) <= 'z' && LowerChar(c) as int == c as int + 32
    ensures !('A' <= c <= 'Z') ==> LowerChar(c) == c
  {
  }

  /** Table names as requests give them: trimmed and in lower case. */
  function TableNameOf(text: string): string {
    Lower(Trim(text))
  }

  lemma NameIsNormal(name: string)
    requires IsName(name)
    ensures TableNameOf(name) == name
  {
    TrimNoSpace(name);
    assert Lower(name) == name;
  }

  // --- Values and schemas --------------------------------------------------------

  predicate IsI64(i: int) {
    -0x8000_0000_0000_0000 <= i < 0x8000_0000_0000_0000
  }

  predicate ValidFieldValue(rfc3339: string -> bool, spec: FieldSpec, v: Json) {
    if spec.fieldType == "string" then
      v.Str? && (spec.maxLength.Some? ==> Utf8Length(v.s) <= spec.maxLength.value)
    else if spec.fieldType == "integer" then v.Int? && IsI64(v.i)
    else if spec.fieldType == "number" then v.Int? || v.Float?
    else if spec.fieldType == "boolean" then v.Bool?
    else if spec.fieldType == "datetime" then v.Str? && rfc3339(v.s)
    else if spec.fieldType == "json" then true
    else if spec.fieldType == "relation" || spec.fieldType == "file" then v.Str? && v.s != ""
    else false
  }

  predicate ValidFieldType(spec: FieldSpec) {
    if spec.fieldType == "relation" then
      spec.relationTable.Some? && ValidTableName(Trim(spec.relationTable.value))
    else if spec.fieldType == "file" then
      spec.fileBucket.Some? && Trim(spec.fileBucket.value) != ""
    else
      spec.fieldType in {"string", "integer", "number", "boolean", "datetime", "json"}
  }

  predicate ValidSchema(rfc3339: string -> bool, schema: Schema) {
    && schema != map[]
    && forall f :: f in schema ==>
         && IsName(f)
         && ValidFieldType(schema[f])
         && (schema[f].default.Some? ==> ValidFieldValue(rfc3339, schema[f], schema[f].default.value))
  }

  // --- Normalisation ---------------------------------------------------------------

  /** Only declared fields, each with a valid value. */
  predicate WellTyped(rfc3339: string -> bool, schema: Schema, row: Row) {
    forall f :: f in row ==> f in schema && ValidFieldValue(rfc3339, schema[f], row[f])
  }

  predicate Mandatory(spec: FieldSpec) {
    spec.required && spec.default.None?
  }

  /** A row the schema accepts: well typed, and with every mandatory field. */
  predicate Conforms(rfc3339: string -> bool, schema: Schema, row: Row) {
    WellTyped(rfc3339, schema, row) && forall f :: f in schema && Mandatory(schema[f]) ==> f in row
  }

  /** The row with the missing defaults filled in. */
  function WithDefaults(schema: Schema, row: Row): Row {
    map f | f in schema && (f in row || schema[f].default.Some?) ::
      if f in row then row[f] else schema[f].default.value
  }

  function Normalize(rfc3339: string -> bool, schema: Schema, data: Json): Option<Row> {
    if data.Obj? && Conforms(rfc3339, schema, data.fields) then Some(WithDefaults(schema, data.fields)) else None
  }

  /** The loop of the validator: it takes the fields out of `input` one schema field at a time. */
  method NormalizeRowData(rfc3339: string -> bool, schema: Schema, data: Json) returns (result: Option<Row>)
    ensures result == Normalize(rfc3339, schema, data)
  {
    if !data.Obj? {
      return None;
    }
    var input := data.fields;
    if exists key :: key in input && key !in schema {
      return None;
    }
    var output: Row := map[];
    var todo := schema.Keys;
    ghost var full := WithDefaults(schema, data.fields);
    while todo != {}
      invariant todo <= schema.Keys
      invariant forall f :: f in input <==> f in data.fields && f in todo
      invariant forall f :: f in input ==> input[f] == data.fields[f]
      invariant forall f :: f in output <==> f in full && f !in todo
      invariant forall f :: f in output ==> output[f] == full[f]
      invariant forall f :: f in schema && f !in todo ==>
                  if f in data.fields then ValidFieldValue(rfc3339, schema[f], data.fields[f])
                  else !Mandatory(schema[f])
      decreases todo
    {
      var field :| field in todo;
      if field in input {
        var value := input[field];
        input := input - {field};
        if !ValidFieldValue(rfc3339, schema[field], value) {
          return None;
        }
        output := output[field := value];
      } else if schema[field].default.Some? {
        output := output[field := schema[field].default.value];
      } else if schema[field].required {
        return None;
      }
      todo := todo - {field};
    }
    assert output == full;
    result := Some(output);
  }

  /** No field that has a default is missing. */
  predicate DefaultsPresent(schema: Schema, row: Row) {
    forall f :: f in schema && schema[f].default.Some? ==> f in row
  }

  /** A row is its own normal form. */
  predicate IsNormal(rfc3339: string -> bool, schema: Schema, row: Row) {
    Normalize(rfc3339, schema, Obj(row)) == Some(row)
  }

  lemma NormalMeansDefaultsPresent(rfc3339: string -> bool, schema: Schema, row: Row)
    ensures
      IsNormal(rfc3339, schema, row) <==>
      Conforms(rfc3339, schema, row) && DefaultsPresent(schema, row)
  {
    var n := WithDefaults(schema, row);
    if Conforms(rfc3339, schema, row) && DefaultsPresent(schema, row) {
      assert n == row;
    }
    if n == row {
      assert forall f :: f in schema && schema[f].default.Some? ==> f in n;
    }
  }

  /** For a validated schema, normalisation yields a row that normalises to itself and keeps what was given. */
  lemma NormalizeIdempotent(rfc3339: string -> bool, schema: Schema, data: Json)
    requires ValidSchema(rfc3339, schema)
    requires Normalize(rfc3339, schema, data).Some?
    ensures IsNormal(rfc3339, schema, Normalize(rfc3339, schema, data).value)
    ensures forall f :: f in data.fields ==>
              f in Normalize(rfc3339, schema, data).value && Normalize(rfc3339, schema, data).value[f] == data.fields[f]
  {
    var row := WithDefaults(schema, data.fields);
    NormalMeansDefaultsPresent(rfc3339, schema, row);
  }

  /** Patching a row that the schema accepts fails exactly when the patch itself is not well typed. */
  lemma PatchAcceptedIffWellTyped(rfc3339: string -> bool, schema: Schema, row: Row, patch: Row)
    requires Conforms(rfc3339, schema, row)
    ensures Normalize(rfc3339, schema, Obj(row + patch)).Some? <==> WellTyped(rfc3339, schema, patch)
  {
    var merged := row + patch;
    if Conforms(rfc3339, schema, merged) {
      forall f | f in patch ensures f in schema && ValidFieldValue(rfc3339, schema[f], patch[f]) {
        assert f in merged && merged[f] == patch[f];
      }
    }
  }

  // --- Access policies -------------------------------------------------------------

  datatype Rules = Rules(create: Option<string>, read: Option<string>, update: Option<string>, delete: Option<string>)
  datatype Policy = Policy(mode: string, rules: Option<Rules>)
  datatype Claims = Claims(sub: string, app: string, isAdmin: bool)
  datatype Access = Read | Update | Delete

  const ADMIN_ONLY := "admin_only"
  const OWNER_PRIVATE := "owner_private"
  const SHARED_RW := "authenticated_shared_rw"
  const CUSTOM := "custom"

  predicate ValidRule(rule: Option<string>) {
    rule.Some? ==> rule.value in {"public", "authenticated", "admin", "owner"}
  }

  predicate ValidRules(rules: Rules) {
    ValidRule(rules.create) && ValidRule(rules.read) && ValidRule(rules.update) && ValidRule(rules.delete)
  }

  predicate ValidPolicy(policy: Policy) {
    if policy.mode in {ADMIN_ONLY, OWNER_PRIVATE, SHARED_RW} then policy.rules.Some? ==> ValidRules(policy.rules.value)
    else policy.mode == CUSTOM && policy.rules.Some? && ValidRules(policy.rules.value)
  }

  function CreateRule(policy: Policy): Option<string> {
    if policy.rules.Some? then policy.rules.value.create else None
  }

  predicate EvaluateRule(rule: string, claims: Claims, owner: Option<string>) {
    || rule == "public" || rule == "authenticated"
    || (rule == "admin" && claims.isAdmin)
    || (rule == "owner" && (owner.None? || owner.value == claims.sub))
  }

  predicate CanWriteTable(claims: Claims, policy: Policy) {
    if CreateRule(policy).Some? then EvaluateRule(CreateRule(policy).value, claims, None)
    else if policy.mode == ADMIN_ONLY then claims.isAdmin
    else policy.mode == OWNER_PRIVATE || policy.mode == SHARED_RW
  }

  predicate CanAccessRow(claims: Claims, policy: Policy, owner: Option<string>, access: Access) {
    claims.isAdmin ||
    var rule := if policy.rules.None? then None else match access {
        case Read => policy.rules.value.read
        case Update => policy.rules.value.update
        case Delete => policy.rules.value.delete
      };
    if rule.Some? then EvaluateRule(rule.value, claims, owner)
    else if policy.mode == OWNER_PRIVATE then owner == Some(claims.sub)
    else policy.mode == SHARED_RW
  }

  function OwnerForNewRow(claims: Claims, policy: Policy): Option<string> {
    if CreateRule(policy).Some? then
      if CreateRule(policy).value in {"owner", "authenticated"} then Some(claims.sub) else None
    else if policy.mode in {OWNER_PRIVATE, SHARED_RW} then Some(claims.sub)
    else None
  }

  /** The owner an import stores; `None` rejects the row. */
  function NormalizeImportOwner(policy: Policy, owner: Option<string>): Option<Option<string>> {
    var present := if owner.Some? && Trim(owner.value) != "" then owner else None;
    if CreateRule(policy).Some? then
      var rule := CreateRule(policy).value;
      if rule == "owner" then if present.Some? then Some(present) else None
      else if rule == "authenticated" then Some(present)
      else if rule == "public" || rule == "admin" then Some(None)
      else None
    else if policy.mode == OWNER_PRIVATE then if present.Some? then Some(present) else None
    else if policy.mode == SHARED_RW then Some(present)
    else if policy.mode == ADMIN_ONLY || policy.mode == CUSTOM then Some(None)
    else None
  }

  /** Whether rows under a policy must have an owner, may have one, or must not. */
  datatype OwnerNeed = Required | Optional | Never

  function OwnerNeedOf(policy: Policy): OwnerNeed {
    if CreateRule(policy).Some? then
      var rule := CreateRule(policy).value;
      if rule == "owner" then Required else if rule == "authenticated" then Optional else Never
    else if policy.mode == OWNER_PRIVATE then Required
    else if policy.mode == SHARED_RW then Optional
    else Never
  }

  predicate OwnerFits(policy: Policy, owner: Option<string>) {
    match OwnerNeedOf(policy)
    case Required => owner.Some? && Trim(owner.value) != ""
    case Optional => owner.Some? ==> Trim(owner.value) != ""
    case Never => owner.None?
  }

  /** An import keeps an owner as it is if and only if the owner fits the policy. */
  lemma OwnerKeptIffFits(policy: Policy, owner: Option<string>)
    requires ValidPolicy(policy)
    ensures NormalizeImportOwner(policy, owner) == Some(owner) <==> OwnerFits(policy, owner)
  {
  }

  /** The owner given to a new row is one that an import under the same policy leaves alone. */
  lemma NewOwnerSurvivesImport(claims: Claims, policy: Policy)
    requires ValidPolicy(policy) && (OwnerForNewRow(claims, policy).Some? ==> Trim(claims.sub) != "")
    ensures NormalizeImportOwner(policy, OwnerForNewRow(claims, policy)) == Some(OwnerForNewRow(claims, policy))
  {
  }

  /** Import owner normalisation is idempotent. */
  lemma ImportOwnerIdempotent(policy: Policy, owner: Option<string>)
    requires NormalizeImportOwner(policy, owner).Some?
    ensures
      NormalizeImportOwner(policy, NormalizeImportOwner(policy, owner).value) == NormalizeImportOwner(policy, owner)
  {
  }
}
