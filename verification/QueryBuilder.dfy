/** From list parameters to a row query, and the proof that nothing is lost or added on the way. */
module QueryBuilder {
  import opened Common
  import opened Text
  import opened JsonValue
  import opened Ordering
  import opened Schema
  import opened Like
  import opened DataStore
  import opened RowQuery

  // --- Validation ----------------------------------------------------------------------

  function ParseBoolFilter(value: string): Option<bool> {
    if value == "true" || value == "1" then Some(true)
    else if value == "false" || value == "0" then Some(false)
    else None
  }

  predicate FilterOpSupported(fieldType: string, op: string) {
    if fieldType == "string" then op in {"eq", "ne", "contains", "starts_with", "ends_with"}
    else if fieldType in {"integer", "number", "datetime"} then op in {"eq", "ne", "gt", "gte", "lt", "lte"}
    else if fieldType in {"boolean", "json"} then op in {"eq", "ne"}
    else false
  }

  predicate FilterValueValid(env: Env, fieldType: string, value: string) {
    if fieldType == "boolean" then ParseBoolFilter(value).Some?
    else if fieldType == "integer" then env.parseI64(value).Some?
    else if fieldType in {"number", "datetime"} then env.parseF64(value).Some?
    else true
  }

  function StringFields(schema: Schema): set<string> {
    set f | f in schema && schema[f].fieldType == "string"
  }

  predicate FilterValid(env: Env, schema: Schema, p: ListParams) {
    if p.filterField.None? && p.filterOp.None? && p.filterValue.None? then true
    else if p.filterField.Some? && p.filterOp.Some? && p.filterValue.Some? then
      && p.filterField.value in schema
      && FilterOpSupported(schema[p.filterField.value].fieldType, p.filterOp.value)
      && FilterValueValid(env, schema[p.filterField.value].fieldType, p.filterValue.value)
    else false
  }

  predicate ValidListParams(env: Env, schema: Schema, p: ListParams) {
    && p.limit != Some(0)
    && (p.orderBy.Some? ==> p.orderBy.value in {"created_at", "updated_at"} || p.orderBy.value in schema)
    && (p.order.Some? ==> p.order.value in {"asc", "desc"})
    && (p.search.Some? ==> Trim(p.search.value) != "" && StringFields(schema) != {})
    && (p.done.Some? ==> "done" in schema)
    && (p.titleContains.Some? ==> "title" in schema)
    && FilterValid(env, schema, p)
  }

  /** Which parameters are accepted, one after another. */
  lemma AcceptedParams(env: Env, schema: Schema, p: ListParams)
    ensures
      ValidListParams(env, schema, p) <==>
      && (p.limit.None? || p.limit.value >= 1)
      && (p.orderBy.None? ||
          p.orderBy.value == "created_at" || p.orderBy.value == "updated_at" || p.orderBy.value in schema)
      && (p.order.None? || p.order.value == "asc" || p.order.value == "desc")
      && (p.search.None? ||
          (Trim(p.search.value) != "" && exists f :: f in schema && schema[f].fieldType == "string"))
      && (p.done.None? || "done" in schema)
      && (p.titleContains.None? || "title" in schema)
      && AcceptedFilter(env, schema, p)
  {
    assert StringFields(schema) != {} <==> exists f :: f in schema && schema[f].fieldType == "string" by {
      if f :| f in schema && schema[f].fieldType == "string" {
        assert f in StringFields(schema);
      }
      if StringFields(schema) != {} {
        var f :| f in StringFields(schema);
      }
    }
    FilterRules(env, schema, p);
  }

  /** A filter is given whole or not at all, with an operator and a value for its type. */
  ghost predicate AcceptedFilter(env: Env, schema: Schema, p: ListParams) {
    || (p.filterField.None? && p.filterOp.None? && p.filterValue.None?)
    || (&& p.filterField.Some? && p.filterOp.Some? && p.filterValue.Some? && p.filterField.value in schema
        && var kind, op, value := schema[p.filterField.value].fieldType, p.filterOp.value, p.filterValue.value;
        || (kind == "string" && op in {"eq", "ne", "contains", "starts_with", "ends_with"})
        || (kind == "boolean" && op in {"eq", "ne"} && value in {"true", "false", "1", "0"})
        || (kind == "json" && op in {"eq", "ne"})
        || (kind == "integer" && op in {"eq", "ne", "gt", "gte", "lt", "lte"} && env.parseI64(value).Some?)
        || (kind in {"number", "datetime"} && op in {"eq", "ne", "gt", "gte", "lt", "lte"}
            && env.parseF64(value).Some?))
  }

  lemma FilterRules(env: Env, schema: Schema, p: ListParams)
    ensures FilterValid(env, schema, p) <==> AcceptedFilter(env, schema, p)
  {
    if p.filterField.Some? && p.filterOp.Some? && p.filterValue.Some? && p.filterField.value in schema {
      FilterRule(env, schema[p.filterField.value].fieldType, p.filterOp.value, p.filterValue.value);
    }
  }

  lemma FilterRule(env: Env, fieldType: string, op: string, value: string)
    ensures
      FilterOpSupported(fieldType, op) && FilterValueValid(env, fieldType, value) <==>
      || (fieldType == "string" && op in {"eq", "ne", "contains", "starts_with", "ends_with"})
      || (fieldType == "boolean" && op in {"eq", "ne"} && value in {"true", "false", "1", "0"})
      || (fieldType == "json" && op in {"eq", "ne"})
      || (fieldType == "integer" && op in {"eq", "ne", "gt", "gte", "lt", "lte"} && env.parseI64(value).Some?)
      || (fieldType in {"number", "datetime"} && op in {"eq", "ne", "gt", "gte", "lt", "lte"}
          && env.parseF64(value).Some?)
  {
  }

  lemma BooleanWords()
    ensures ParseBoolFilter("true") == Some(true) && ParseBoolFilter("1") == Some(true)
    ensures ParseBoolFilter("false") == Some(false) && ParseBoolFilter("0") == Some(false)
  {
    assert "true"[0] == 't' && "1"[0] == '1' && "false"[0] == 'f' && "0"[0] == '0';
  }

  // --- What the parameters ask for ---------------------------------------------------------

  predicate Ordered(op: string, below: bool, equal: bool) {
    if op == "eq" then equal
    else if op == "ne" then !equal
    else if op == "gt" then !below && !equal
    else if op == "gte" then !below
    else if op == "lt" then below
    else below || equal
  }

  /** A JSON number as the database reads it. */
  function Number(env: Env, v: Json): real {
    match v
    case Int(i) => if IsI64(i) then i as real else env.round(i)
    case Float(r) => r
    case _ => 0.0
  }

  predicate NumberFits(op: string, x: real, limit: F64) {
    match limit
    case Finite(y) => Ordered(op, x < y, x == y)
    case Infinite(positive) => Ordered(op, positive, false)
    case NotANumber => false
  }

  ghost predicate TextFits(op: string, s: string, value: string) {
    if op == "eq" then s == value
    else if op == "ne" then s != value
    else if op == "contains" then MatchesInside(value, s)
    else if op == "starts_with" then MatchesPrefix(value, s)
    else MatchesSuffix(value, s)
  }

  /** The text of a JSON value that the database keeps as text; numbers and booleans are kept as numbers. */
  function KeptText(env: Env, v: Json): Option<string> {
    match v
    case Str(s) => Some(s)
    case Arr(_) => Some(env.jsonText(v))
    case Obj(_) => Some(env.jsonText(v))
    case _ => None
  }

  /**
   A row passes a filter when it has the field and the field's value fits.
   Timestamps and values of json fields are compared with the filter as text.
   */
  ghost predicate FilterHolds(env: Env, spec: FieldSpec, op: string, value: string, row: Row, field: string) {
    field in row &&
    if spec.fieldType == "string" then row[field].Str? && TextFits(op, row[field].s, value)
    else if spec.fieldType == "integer" then
      row[field].Int? && env.parseI64(value).Some?
      && Ordered(op, row[field].i < env.parseI64(value).value, row[field].i == env.parseI64(value).value)
    else if spec.fieldType == "number" then
      (row[field].Int? || row[field].Float?) && env.parseF64(value).Some?
      && NumberFits(op, Number(env, row[field]), env.parseF64(value).value)
    else if spec.fieldType == "datetime" then
      row[field].Str? && Ordered(op, Less(row[field].s, value), row[field].s == value)
    else if spec.fieldType == "json" then
      !row[field].Null? && (KeptText(env, row[field]) == Some(value) <==> op == "eq")
    else
      row[field].Bool? && ParseBoolFilter(value).Some?
      && (row[field].b == ParseBoolFilter(value).value <==> op == "eq")
  }

  /** The text a field value shows: strings as they are, other values as the database writes them. */
  function Shown(env: Env, v: Json): string {
    match v
    case Bool(b) => env.intText(if b then 1 else 0)
    case Int(i) => if IsI64(i) then env.intText(i) else env.realText(env.round(i))
    case Float(r) => env.realText(r)
    case Str(s) => s
    case Null => ""
    case _ => env.jsonText(v)
  }

  predicate HasValue(row: Row, field: string) {
    field in row && !row[field].Null?
  }

  predicate DoneIs(env: Env, row: Row, done: bool) {
    "done" in row && match row["done"]
      case Bool(b) => b == done
      case Int(_) => Number(env, row["done"]) == if done then 1.0 else 0.0
      case Float(_) => Number(env, row["done"]) == if done then 1.0 else 0.0
      case _ => false
  }

  ghost predicate InScope(app: string, tableId: string, owner: Option<string>, row: StoredRow) {
    row.app == app && row.tableId == tableId && (owner.Some? ==> row.owner == owner)
  }

  ghost predicate SearchHolds(schema: Schema, p: ListParams, row: Row) {
    p.search.Some? ==>
      exists f ::
        && f in schema && schema[f].fieldType == "string"
        && f in row && row[f].Str? && MatchesInside(p.search.value, row[f].s)
  }

  ghost predicate TitleHolds(env: Env, p: ListParams, row: Row) {
    p.titleContains.Some? ==> HasValue(row, "title") && MatchesInside(p.titleContains.value, Shown(env, row["title"]))
  }

  ghost predicate DoneHolds(env: Env, p: ListParams, row: Row) {
    p.done.Some? ==> DoneIs(env, row, p.done.value)
  }

  ghost predicate FilterAsked(env: Env, schema: Schema, p: ListParams, row: Row) {
    p.filterField.Some? && p.filterOp.Some? && p.filterValue.Some? ==>
      p.filterField.value in schema &&
      FilterHolds(env, schema[p.filterField.value], p.filterOp.value, p.filterValue.value, row, p.filterField.value)
  }

  /** The rows a list request asks for. */
  ghost predicate Wanted(
    env: Env, schema: Schema, p: ListParams, app: string, tableId: string, owner: Option<string>, row: StoredRow)
  {
    && InScope(app, tableId, owner, row)
    && SearchHolds(schema, p, row.data)
    && TitleHolds(env, p, row.data)
    && DoneHolds(env, p, row.data)
    && FilterAsked(env, schema, p, row.data)
  }

  // --- Compilation ----------------------------------------------------------------------------

  /** Conditions together with the binds for their placeholders. */
  datatype Part = Part(conditions: seq<Condition>, binds: seq<Bind>)

  function SqlOperator(op: string): string {
    if op == "eq" then "="
    else if op == "ne" then "!="
    else if op == "gt" then ">"
    else if op == "gte" then ">="
    else if op == "lt" then "<"
    else if op == "lte" then "<="
    else "="
  }

  function BuildFilterClause(env: Env, field: string, spec: FieldSpec, op: string, value: string): Part {
    var lhs := Field(field);
    if spec.fieldType == "string" then
      if op == "eq" then Part([Compares(lhs, "=")], [TextBind(value)])
      else if op == "ne" then Part([Compares(lhs, "!=")], [TextBind(value)])
      else if op == "contains" then Part([IsLike(lhs)], [TextBind("%" + value + "%")])
      else if op == "starts_with" then Part([IsLike(lhs)], [TextBind(value + "%")])
      else if op == "ends_with" then Part([IsLike(lhs)], [TextBind("%" + value)])
      else Part([OneIsOne], [])
    else if spec.fieldType == "boolean" then
      Part([Compares(lhs, if op == "ne" then "!=" else "=")], [BoolBind(ParseBoolFilter(value).GetOr(false))])
    else if spec.fieldType == "integer" then
      Part([Compares(lhs, SqlOperator(op))], [IntBind(env.parseI64(value).GetOr(0))])
    else if spec.fieldType == "number" then
      Part([Compares(lhs, SqlOperator(op))], [FloatBind(env.parseF64(value).GetOr(Finite(0.0)))])
    else
      Part([Compares(lhs, SqlOperator(op))], [TextBind(value)])
  }

  function ScopePart(app: string, tableId: string, owner: Option<string>): Part {
    var base := Part([Compares(Column("app_id"), "="), Compares(Column("table_id"), "=")],
                     [TextBind(app), TextBind(tableId)]);
    if owner.None? then base
    else Part(base.conditions + [Compares(Column("owner_user_id"), "=")], base.binds + [TextBind(owner.value)])
  }

  /** One alternative and one bind per text field, in some order of the fields. */
  function SearchPart(p: ListParams, fields: seq<string>): Part {
    if p.search.None? || fields == [] then Part([], [])
    else Part([AnyOf(seq(|fields|, i requires 0 <= i < |fields| => IsLike(Field(fields[i]))))],
              seq(|fields|, _ => TextBind("%" + p.search.value + "%")))
  }

  function TitlePart(p: ListParams): Part {
    if p.titleContains.None? then Part([], [])
    else Part([IsLike(Field("title"))], [TextBind("%" + p.titleContains.value + "%")])
  }

  function DonePart(p: ListParams): Part {
    if p.done.None? then Part([], []) else Part([Compares(Field("done"), "=")], [BoolBind(p.done.value)])
  }

  function FilterPart(env: Env, schema: Schema, p: ListParams): Part {
    if p.filterField.Some? && p.filterOp.Some? && p.filterValue.Some? && p.filterField.value in schema then
      BuildFilterClause(env, p.filterField.value, schema[p.filterField.value], p.filterOp.value, p.filterValue.value)
    else Part([], [])
  }

  // --- Each part means its share of the request ---------------------------------------------------

  /** The part's placeholders and binds agree, and it is true of a row exactly when `wanted` says so. */
  ghost predicate Means(env: Env, part: Part, row: StoredRow, wanted: bool) {
    |part.binds| == PlaceholdersOf(part.conditions) && (Selects(env, part.conditions, part.binds, row) <==> wanted)
  }

  lemma EmptyMeans(env: Env, row: StoredRow)
    ensures Means(env, Part([], []), row, true)
  {
  }

  lemma SingleMeans(env: Env, c: Condition, b: seq<Bind>, row: StoredRow)
    requires |b| == Placeholders(c)
    ensures Means(env, Part([c], b), row, Eval(env, c, row, b) == Yes)
  {
    EvalSingle(env, c, row, b);
  }

  lemma AppendMeans(env: Env, a: Part, b: Part, row: StoredRow, wa: bool, wb: bool)
    requires Means(env, a, row, wa) && Means(env, b, row, wb)
    ensures Means(env, Part(a.conditions + b.conditions, a.binds + b.binds), row, wa && wb)
  {
    SelectsAppend(env, a.conditions, b.conditions, a.binds, b.binds, row);
  }

  lemma ScopeMeans(env: Env, app: string, tableId: string, owner: Option<string>, row: StoredRow)
    ensures Means(env, ScopePart(app, tableId, owner), row, InScope(app, tableId, owner, row))
  {
    var a, t := Compares(Column("app_id"), "="), Compares(Column("table_id"), "=");
    SingleMeans(env, a, [TextBind(app)], row);
    SingleMeans(env, t, [TextBind(tableId)], row);
    AppendMeans(env, Part([a], [TextBind(app)]), Part([t], [TextBind(tableId)]), row,
                row.app == app, row.tableId == tableId);
    assert [a] + [t] == [a, t] && [TextBind(app)] + [TextBind(tableId)] == [TextBind(app), TextBind(tableId)];
    if owner.Some? {
      var o := Compares(Column("owner_user_id"), "=");
      SingleMeans(env, o, [TextBind(owner.value)], row);
      AppendMeans(env, ScopePart(app, tableId, None), Part([o], [TextBind(owner.value)]), row,
                  row.app == app && row.tableId == tableId, row.owner == owner);
    }
  }

  lemma {:induction false} AnyFieldMatches(env: Env, fields: seq<string>, pattern: string, row: StoredRow)
    ensures
      var cs := seq(|fields|, i requires 0 <= i < |fields| => IsLike(Field(fields[i])));
      var bs := seq(|fields|, _ => TextBind(pattern));
      && PlaceholdersOf(cs) == |bs|
      && (EvalAny(env, cs, row, bs) == Yes <==>
          exists i :: 0 <= i < |fields| && Eval(env, IsLike(Field(fields[i])), row, [TextBind(pattern)]) == Yes)
  {
    var cs := seq(|fields|, i requires 0 <= i < |fields| => IsLike(Field(fields[i])));
    var bs: seq<Bind> := seq(|fields|, _ => TextBind(pattern));
    if fields != [] {
      var rest := fields[1..];
      AnyFieldMatches(env, rest, pattern, row);
      assert cs[1..] == seq(|rest|, i requires 0 <= i < |rest| => IsLike(Field(rest[i])));
      assert bs[1..] == seq(|rest|, _ => TextBind(pattern)) && bs[..1] == [TextBind(pattern)];
      assert EvalAny(env, cs, row, bs) ==
             Either(Eval(env, cs[0], row, [TextBind(pattern)]), EvalAny(env, cs[1..], row, bs[1..]));
      forall i | 0 <= i < |rest| ensures rest[i] == fields[i + 1] {}
      if exists i :: 0 <= i < |fields| && Eval(env, IsLike(Field(fields[i])), row, [TextBind(pattern)]) == Yes {
        var i :| 0 <= i < |fields| && Eval(env, IsLike(Field(fields[i])), row, [TextBind(pattern)]) == Yes;
        if i > 0 {
          assert rest[i - 1] == fields[i];
        }
      }
    }
  }

  lemma TextFieldLike(env: Env, field: string, v: string, row: StoredRow)
    requires field in row.data ==> row.data[field].Str?
    ensures
      Eval(env, IsLike(Field(field)), row, [TextBind("%" + v + "%")]) == Yes <==>
      field in row.data && row.data[field].Str? && MatchesInside(v, row.data[field].s)
  {
    if field in row.data {
      LikeBothPercents(v, row.data[field].s);
    }
  }

  ghost predicate FieldContains(row: Row, field: string, v: string) {
    field in row && row[field].Str? && MatchesInside(v, row[field].s)
  }

  lemma SearchHoldsIff(schema: Schema, p: ListParams, fields: seq<string>, row: Row)
    requires p.search.Some? && Elements(fields) == StringFields(schema)
    ensures
      SearchHolds(schema, p, row) <==>
      exists i :: 0 <= i < |fields| && FieldContains(row, fields[i], p.search.value)
  {
    var v := p.search.value;
    if SearchHolds(schema, p, row) {
      var f :| f in schema && schema[f].fieldType == "string" && f in row && row[f].Str? && MatchesInside(v, row[f].s);
      assert f in StringFields(schema) && f in Elements(fields);
      var i :| 0 <= i < |fields| && fields[i] == f;
      assert FieldContains(row, fields[i], v);
    }
    if i :| 0 <= i < |fields| && FieldContains(row, fields[i], v) {
      assert fields[i] in Elements(fields);
    }
  }

  lemma SearchMeans(
    env: Env, rfc3339: string -> bool, schema: Schema, p: ListParams, fields: seq<string>, row: StoredRow)
    requires WellTyped(rfc3339, schema, row.data) && Elements(fields) == StringFields(schema)
    requires p.search.Some? ==> StringFields(schema) != {}
    ensures Means(env, SearchPart(p, fields), row, SearchHolds(schema, p, row.data))
  {
    if p.search.Some? {
      var v := p.search.value;
      AnyFieldMatches(env, fields, "%" + v + "%", row);
      SingleMeans(env, SearchPart(p, fields).conditions[0], SearchPart(p, fields).binds, row);
      forall i | 0 <= i < |fields|
        ensures
          Eval(env, IsLike(Field(fields[i])), row, [TextBind("%" + v + "%")]) == Yes <==>
          FieldContains(row.data, fields[i], v)
      {
        assert fields[i] in Elements(fields);
        TextFieldLike(env, fields[i], v, row);
      }
      SearchHoldsIff(schema, p, fields, row.data);
    } else {
      EmptyMeans(env, row);
    }
  }

  lemma TitleMeans(env: Env, p: ListParams, row: StoredRow)
    ensures Means(env, TitlePart(p), row, TitleHolds(env, p, row.data))
  {
    if p.titleContains.Some? {
      var v := p.titleContains.value;
      SingleMeans(env, IsLike(Field("title")), [TextBind("%" + v + "%")], row);
      if HasValue(row.data, "title") {
        LikeBothPercents(v, Shown(env, row.data["title"]));
      }
    }
  }

  lemma DoneMeans(env: Env, p: ListParams, row: StoredRow)
    ensures Means(env, DonePart(p), row, DoneHolds(env, p, row.data))
  {
    if p.done.Some? {
      SingleMeans(env, Compares(Field("done"), "="), [BoolBind(p.done.value)], row);
    }
  }

  lemma TextFilterMeans(env: Env, spec: FieldSpec, field: string, op: string, value: string, row: StoredRow)
    requires spec.fieldType == "string" && FilterOpSupported("string", op)
    requires field in row.data ==> row.data[field].Str?
    ensures
      Means(env, BuildFilterClause(env, field, spec, op, value), row,
            FilterHolds(env, spec, op, value, row.data, field))
  {
    var part := BuildFilterClause(env, field, spec, op, value);
    SingleMeans(env, part.conditions[0], part.binds, row);
    if field in row.data {
      var s := row.data[field].s;
      LikeBothPercents(value, s);
      LikeTrailingPercent(value, s);
      LikeLeadingPercent(value, s);
    }
  }

  lemma NumberFilterMeans(
    env: Env, rfc3339: string -> bool, spec: FieldSpec, field: string, op: string, value: string, row: StoredRow)
    requires spec.fieldType in {"integer", "number"} && FilterOpSupported(spec.fieldType, op)
    requires FilterValueValid(env, spec.fieldType, value)
    requires field in row.data ==> ValidFieldValue(rfc3339, spec, row.data[field])
    ensures
      Means(env, BuildFilterClause(env, field, spec, op, value), row,
            FilterHolds(env, spec, op, value, row.data, field))
  {
    var part := BuildFilterClause(env, field, spec, op, value);
    SingleMeans(env, part.conditions[0], part.binds, row);
  }

  lemma BoolFilterMeans(
    env: Env, rfc3339: string -> bool, spec: FieldSpec, field: string, op: string, value: string, row: StoredRow)
    requires spec.fieldType == "boolean" && FilterOpSupported("boolean", op) && FilterValueValid(env, "boolean", value)
    requires field in row.data ==> ValidFieldValue(rfc3339, spec, row.data[field])
    ensures
      Means(env, BuildFilterClause(env, field, spec, op, value), row,
            FilterHolds(env, spec, op, value, row.data, field))
  {
    var part := BuildFilterClause(env, field, spec, op, value);
    SingleMeans(env, part.conditions[0], part.binds, row);
  }

  lemma RawFilterMeans(
    env: Env, rfc3339: string -> bool, spec: FieldSpec, field: string, op: string, value: string, row: StoredRow)
    requires spec.fieldType in {"datetime", "json"} && FilterOpSupported(spec.fieldType, op)
    requires field in row.data ==> ValidFieldValue(rfc3339, spec, row.data[field])
    ensures
      Means(env, BuildFilterClause(env, field, spec, op, value), row,
            FilterHolds(env, spec, op, value, row.data, field))
  {
    var part := BuildFilterClause(env, field, spec, op, value);
    SingleMeans(env, part.conditions[0], part.binds, row);
    LessIrreflexive(value);
  }

  lemma FilterMeans(env: Env, rfc3339: string -> bool, schema: Schema, p: ListParams, row: StoredRow)
    requires WellTyped(rfc3339, schema, row.data) && FilterValid(env, schema, p)
    ensures Means(env, FilterPart(env, schema, p), row, FilterAsked(env, schema, p, row.data))
  {
    if p.filterField.Some? {
      var f, op, v := p.filterField.value, p.filterOp.value, p.filterValue.value;
      var spec := schema[f];
      if spec.fieldType == "string" {
        TextFilterMeans(env, spec, f, op, v, row);
      } else if spec.fieldType == "boolean" {
        BoolFilterMeans(env, rfc3339, spec, f, op, v, row);
      } else if spec.fieldType in {"datetime", "json"} {
        RawFilterMeans(env, rfc3339, spec, f, op, v, row);
      } else {
        NumberFilterMeans(env, rfc3339, spec, f, op, v, row);
      }
    } else {
      EmptyMeans(env, row);
    }
  }

  // --- The whole query ------------------------------------------------------------------------

  function Joined(a: Part, b: Part): Part {
    Part(a.conditions + b.conditions, a.binds + b.binds)
  }

  lemma JoinedEmpty(a: Part)
    ensures Joined(a, Part([], [])) == a
  {
    assert a.conditions + [] == a.conditions && a.binds + [] == a.binds;
  }

  function WherePart(
    env: Env, p: ListParams, schema: Schema, app: string, tableId: string, owner: Option<string>,
    fields: seq<string>): Part
  {
    Joined(Joined(Joined(Joined(ScopePart(app, tableId, owner), SearchPart(p, fields)), TitlePart(p)), DonePart(p)),
           FilterPart(env, schema, p))
  }

  /** For accepted parameters the conditions select exactly the rows asked for. */
  lemma WhereSelectsWanted(
    env: Env, rfc3339: string -> bool, p: ListParams, schema: Schema, app: string, tableId: string,
    owner: Option<string>, fields: seq<string>, row: StoredRow)
    requires WellTyped(rfc3339, schema, row.data) && Elements(fields) == StringFields(schema)
    requires ValidListParams(env, schema, p)
    ensures
      Means(env, WherePart(env, p, schema, app, tableId, owner, fields), row,
            Wanted(env, schema, p, app, tableId, owner, row))
  {
    ScopeMeans(env, app, tableId, owner, row);
    SearchMeans(env, rfc3339, schema, p, fields, row);
    TitleMeans(env, p, row);
    DoneMeans(env, p, row);
    FilterMeans(env, rfc3339, schema, p, row);
    var w0 := InScope(app, tableId, owner, row);
    var w1 := SearchHolds(schema, p, row.data);
    var w2 := TitleHolds(env, p, row.data);
    var w3 := DoneHolds(env, p, row.data);
    var p1 := Joined(ScopePart(app, tableId, owner), SearchPart(p, fields));
    var p2 := Joined(p1, TitlePart(p));
    var p3 := Joined(p2, DonePart(p));
    AppendMeans(env, ScopePart(app, tableId, owner), SearchPart(p, fields), row, w0, w1);
    AppendMeans(env, p1, TitlePart(p), row, w0 && w1, w2);
    AppendMeans(env, p2, DonePart(p), row, w0 && w1 && w2, w3);
    AppendMeans(env, p3, FilterPart(env, schema, p), row, w0 && w1 && w2 && w3, FilterAsked(env, schema, p, row.data));
  }

  /** As many binds as placeholders. */
  ghost predicate Balanced(part: Part) {
    |part.binds| == PlaceholdersOf(part.conditions)
  }

  lemma JoinedBalanced(a: Part, b: Part)
    requires Balanced(a) && Balanced(b)
    ensures Balanced(Joined(a, b))
  {
    PlaceholdersAppend(a.conditions, b.conditions);
  }

  lemma {:induction false} LikesBalanced(fields: seq<string>)
    ensures PlaceholdersOf(seq(|fields|, i requires 0 <= i < |fields| => IsLike(Field(fields[i])))) == |fields|
  {
    var cs := seq(|fields|, i requires 0 <= i < |fields| => IsLike(Field(fields[i])));
    if fields != [] {
      LikesBalanced(fields[1..]);
      assert cs[1..] == seq(|fields[1..]|, i requires 0 <= i < |fields[1..]| => IsLike(Field(fields[1..][i])));
    }
  }

  lemma ScopeBalanced(app: string, tableId: string, owner: Option<string>)
    ensures Balanced(ScopePart(app, tableId, owner))
  {
    var a, t := Compares(Column("app_id"), "="), Compares(Column("table_id"), "=");
    var o := Compares(Column("owner_user_id"), "=");
    PlaceholdersAppend([a], [t]);
    assert [a] + [t] == [a, t] && PlaceholdersOf([a]) == PlaceholdersOf([t]) == PlaceholdersOf([o]) == 1;
    PlaceholdersAppend([a, t], [o]);
  }

  lemma SearchBalanced(p: ListParams, fields: seq<string>)
    ensures Balanced(SearchPart(p, fields))
  {
    LikesBalanced(fields);
  }

  lemma FilterBalanced(env: Env, schema: Schema, p: ListParams)
    ensures Balanced(FilterPart(env, schema, p))
  {
  }

  /** Whatever the schema and the parameters are, every placeholder has its bind. */
  lemma WhereBalanced(
    env: Env, p: ListParams, schema: Schema, app: string, tableId: string, owner: Option<string>, fields: seq<string>)
    ensures Balanced(WherePart(env, p, schema, app, tableId, owner, fields))
  {
    var p0 := ScopePart(app, tableId, owner);
    var p1 := Joined(p0, SearchPart(p, fields));
    var p2 := Joined(p1, TitlePart(p));
    var p3 := Joined(p2, DonePart(p));
    ScopeBalanced(app, tableId, owner);
    SearchBalanced(p, fields);
    FilterBalanced(env, schema, p);
    JoinedBalanced(p0, SearchPart(p, fields));
    JoinedBalanced(p1, TitlePart(p));
    JoinedBalanced(p2, DonePart(p));
    JoinedBalanced(p3, FilterPart(env, schema, p));
  }

  /**
   A filter value for a datetime field must read as a number, yet it is compared
   with time stamps as text.  If no text is both, `eq` selects no row at all.
   */
  lemma DatetimeEqSelectsNothing(
    env: Env, rfc3339: string -> bool, p: ListParams, schema: Schema, app: string, tableId: string,
    owner: Option<string>, fields: seq<string>, row: StoredRow)
    requires WellTyped(rfc3339, schema, row.data) && Elements(fields) == StringFields(schema)
    requires ValidListParams(env, schema, p) && p.filterField.Some?
    requires schema[p.filterField.value].fieldType == "datetime" && p.filterOp == Some("eq")
    requires forall text :: rfc3339(text) ==> env.parseF64(text).None?
    ensures
      var part := WherePart(env, p, schema, app, tableId, owner, fields);
      !Selects(env, part.conditions, part.binds, row)
  {
    WhereSelectsWanted(env, rfc3339, p, schema, app, tableId, owner, fields, row);
  }

  /** The search alternatives and their binds, pushed field by field. */
  method BuildSearch(schema: Schema, p: ListParams) returns (part: Part, ghost fields: seq<string>)
    ensures part == SearchPart(p, fields) && Elements(fields) == StringFields(schema)
  {
    var names := Enumerate(StringFields(schema));
    fields := names;
    if p.search.None? || names == [] {
      return Part([], []), names;
    }
    var alternatives, binds := [], [];
    for i := 0 to |names|
      invariant |alternatives| == |binds| == i
      invariant forall k :: 0 <= k < i ==> alternatives[k] == IsLike(Field(names[k]))
      invariant forall k :: 0 <= k < i ==> binds[k] == TextBind("%" + p.search.value + "%")
    {
      alternatives := alternatives + [IsLike(Field(names[i]))];
      binds := binds + [TextBind("%" + p.search.value + "%")];
    }
    assert alternatives == SearchPart(p, names).conditions[0].alternatives;
    part := Part([AnyOf(alternatives)], binds);
  }

  /** Conditions and binds are pushed side by side. */
  method BuildWhere(env: Env, p: ListParams, schema: Schema, app: string, tableId: string, owner: Option<string>)
    returns (conditions: seq<Condition>, binds: seq<Bind>, ghost fields: seq<string>)
    ensures Part(conditions, binds) == WherePart(env, p, schema, app, tableId, owner, fields)
    ensures Elements(fields) == StringFields(schema)
  {
    conditions := [Compares(Column("app_id"), "="), Compares(Column("table_id"), "=")];
    binds := [TextBind(app), TextBind(tableId)];
    if owner.Some? {
      conditions := conditions + [Compares(Column("owner_user_id"), "=")];
      binds := binds + [TextBind(owner.value)];
    }
    var search;
    search, fields := BuildSearch(schema, p);
    conditions, binds := conditions + search.conditions, binds + search.binds;
    ghost var part := Joined(ScopePart(app, tableId, owner), SearchPart(p, fields));
    assert Part(conditions, binds) == part;
    if p.titleContains.Some? {
      conditions := conditions + [IsLike(Field("title"))];
      binds := binds + [TextBind("%" + p.titleContains.value + "%")];
    }
    JoinedEmpty(part);
    part := Joined(part, TitlePart(p));
    assert Part(conditions, binds) == part;
    if p.done.Some? {
      conditions := conditions + [Compares(Field("done"), "=")];
      binds := binds + [BoolBind(p.done.value)];
    }
    JoinedEmpty(part);
    part := Joined(part, DonePart(p));
    assert Part(conditions, binds) == part;
    JoinedEmpty(part);
    if p.filterField.Some? && p.filterOp.Some? && p.filterValue.Some? && p.filterField.value in schema {
      var filter := BuildFilterClause(
        env, p.filterField.value, schema[p.filterField.value], p.filterOp.value, p.filterValue.value);
      conditions, binds := conditions + filter.conditions, binds + filter.binds;
    }
  }

  /** Conditions and binds under which a query answers the request. */
  ghost predicate Answers(
    env: Env, rfc3339: string -> bool, p: ListParams, schema: Schema, app: string, tableId: string,
    owner: Option<string>, conditions: seq<Condition>, binds: seq<Bind>)
  {
    && |binds| == PlaceholdersOf(conditions)
    && forall row: StoredRow :: WellTyped(rfc3339, schema, row.data) ==>
         (Selects(env, conditions, binds, row) <==> Wanted(env, schema, p, app, tableId, owner, row))
  }

  lemma WhereAnswers(
    env: Env, rfc3339: string -> bool, p: ListParams, schema: Schema, app: string, tableId: string,
    owner: Option<string>, fields: seq<string>)
    requires ValidListParams(env, schema, p) && Elements(fields) == StringFields(schema)
    ensures
      var part := WherePart(env, p, schema, app, tableId, owner, fields);
      Answers(env, rfc3339, p, schema, app, tableId, owner, part.conditions, part.binds)
  {
    var part := WherePart(env, p, schema, app, tableId, owner, fields);
    var empty := StoredRow("", "", None, map[], "", "");
    WhereSelectsWanted(env, rfc3339, p, schema, app, tableId, owner, fields, empty);
    forall row: StoredRow | WellTyped(rfc3339, schema, row.data)
      ensures Selects(env, part.conditions, part.binds, row) <==> Wanted(env, schema, p, app, tableId, owner, row)
    {
      WhereSelectsWanted(env, rfc3339, p, schema, app, tableId, owner, fields, row);
    }
  }

  /** Order, direction, page size and offset are those of the request, with their defaults and the upper limit. */
  ghost predicate AsAsked(schema: Schema, p: ListParams, q: RowQuery) {
    && q.offset == AsI64(p.offset.GetOr(0))
    && 1 <= q.limit <= 50
    && (q.limit < 50 ==> p.limit == Some(q.limit))
    && (p.limit.Some? && p.limit.value <= 50 ==> q.limit == p.limit.value)
    && (q.descending <==> p.order != Some("asc"))
    && q.orderBy.name == p.orderBy.GetOr("created_at")
    && (q.orderBy.Column? <==> q.orderBy.name in {"created_at", "updated_at"})
  }

  /** The query of a list request. */
  method BuildRowQuery(
    env: Env, p: ListParams, schema: Schema, app: string, tableId: string, owner: Option<string>,
    ghost rfc3339: string -> bool) returns (q: RowQuery, ghost fields: seq<string>)
    ensures Part(q.conditions, q.binds) == WherePart(env, p, schema, app, tableId, owner, fields)
    ensures Elements(fields) == StringFields(schema)
    ensures |q.binds| == PlaceholdersOf(q.conditions)
    ensures ValidListParams(env, schema, p) ==>
      Answers(env, rfc3339, p, schema, app, tableId, owner, q.conditions, q.binds)
    ensures ValidListParams(env, schema, p) ==> AsAsked(schema, p, q)
  {
    var conditions, binds;
    conditions, binds, fields := BuildWhere(env, p, schema, app, tableId, owner);
    var limit := p.limit.GetOr(MAX_LIST_ROWS);
    if limit > MAX_LIST_ROWS {
      limit := MAX_LIST_ROWS;
    }
    var orderBy := Column("created_at");
    if p.orderBy == Some("updated_at") {
      orderBy := Column("updated_at");
    } else if p.orderBy.Some? && p.orderBy.value != "created_at" && p.orderBy.value in schema {
      orderBy := Field(p.orderBy.value);
    }
    q := RowQuery(conditions, binds, orderBy, p.order != Some("asc"), limit, AsI64(p.offset.GetOr(0)));
    WhereBalanced(env, p, schema, app, tableId, owner, fields);
    if ValidListParams(env, schema, p) {
      WhereAnswers(env, rfc3339, p, schema, app, tableId, owner, fields);
    }
  }

  // --- The SQL text ----------------------------------------------------------------------------

  function OperandSql(operand: Operand): string {
    match operand
    case Column(name) => name
    case Field(name) => "json_extract(data_json, '$." + name + "')"
  }

  function ConditionSql(c: Condition): string {
    match c
    case Compares(lhs, op) => OperandSql(lhs) + " " + op + " ?"
    case IsLike(lhs) => OperandSql(lhs) + " LIKE ?"
    case AnyOf(alternatives) => "(" + JoinedSql(alternatives, " OR ") + ")"
    case OneIsOne => "1 = 1"
  }

  function JoinedSql(cs: seq<Condition>, glue: string): string {
    if cs == [] then ""
    else if |cs| == 1 then ConditionSql(cs[0])
    else ConditionSql(cs[0]) + glue + JoinedSql(cs[1..], glue)
  }

  function Marks(s: string): nat {
    if s == "" then 0 else (if s[0] == '?' then 1 else 0) + Marks(s[1..])
  }

  lemma {:induction false} MarksAppend(a: string, b: string)
    ensures Marks(a + b) == Marks(a) + Marks(b)
  {
    if a == "" {
      assert a + b == b;
    } else {
      assert (a + b)[1..] == a[1..] + b;
      MarksAppend(a[1..], b);
    }
  }

  lemma {:induction false} NoMarks(s: string)
    requires '?' !in s
    ensures Marks(s) == 0
  {
    if s != "" {
      NoMarks(s[1..]);
    }
  }

  /** Neither names nor operators hold a question mark. */
  ghost predicate MarkFree(c: Condition) {
    match c
    case Compares(lhs, op) => '?' !in lhs.name && '?' !in op
    case IsLike(lhs) => '?' !in lhs.name
    case AnyOf(alternatives) => forall i :: 0 <= i < |alternatives| ==> MarkFree(alternatives[i])
    case OneIsOne => true
  }

  lemma OperandMarks(operand: Operand)
    requires '?' !in operand.name
    ensures Marks(OperandSql(operand)) == 0
  {
    if operand.Field? {
      assert '?' !in "json_extract(data_json, '$.";
      assert '?' !in "')";
    }
    NoMarks(OperandSql(operand));
  }

  lemma {:induction false} ConditionMarks(c: Condition)
    requires MarkFree(c)
    ensures Marks(ConditionSql(c)) == Placeholders(c)
    decreases c, 0
  {
    match c
    case Compares(lhs, op) =>
      OperandMarks(lhs);
      NoMarks(op);
      MarksAppend(OperandSql(lhs) + " " + op, " ?");
      MarksAppend(OperandSql(lhs) + " ", op);
      MarksAppend(OperandSql(lhs), " ");
      assert Marks(" ?") == 1 by { assert " ?"[1..] == "?" && "?"[1..] == ""; }
      assert Marks(" ") == 0 by { NoMarks(" "); }
    case IsLike(lhs) =>
      OperandMarks(lhs);
      NoMarks(" LIKE ");
      MarksAppend(OperandSql(lhs), " LIKE ?");
      assert " LIKE ?" == " LIKE " + "?";
      MarksAppend(" LIKE ", "?");
      assert Marks("?") == 1 by { assert "?"[1..] == ""; }
    case AnyOf(alternatives) =>
      JoinedMarks(alternatives, " OR ");
      NoMarks("(");
      NoMarks(")");
      MarksAppend("(" + JoinedSql(alternatives, " OR "), ")");
      MarksAppend("(", JoinedSql(alternatives, " OR "));
    case OneIsOne => NoMarks("1 = 1");
  }

  lemma {:induction false} JoinedMarks(cs: seq<Condition>, glue: string)
    requires '?' !in glue && forall i :: 0 <= i < |cs| ==> MarkFree(cs[i])
    ensures Marks(JoinedSql(cs, glue)) == PlaceholdersOf(cs)
    decreases cs, 1
  {
    if cs != [] {
      ConditionMarks(cs[0]);
      if |cs| > 1 {
        JoinedMarks(cs[1..], glue);
        NoMarks(glue);
        MarksAppend(ConditionSql(cs[0]) + glue, JoinedSql(cs[1..], glue));
        MarksAppend(ConditionSql(cs[0]), glue);
      } else {
        assert cs[1..] == [];
      }
    }
  }

  ghost predicate AllMarkFree(cs: seq<Condition>) {
    forall i :: 0 <= i < |cs| ==> MarkFree(cs[i])
  }

  lemma MarkFreeAppend(a: seq<Condition>, b: seq<Condition>)
    requires AllMarkFree(a) && AllMarkFree(b)
    ensures AllMarkFree(a + b)
  {
  }

  /** Validated field names hold no question mark. */
  lemma NameMarkFree(f: string)
    requires IsName(f)
    ensures '?' !in f
  {
  }

  lemma SearchMarkFree(rfc3339: string -> bool, schema: Schema, p: ListParams, fields: seq<string>)
    requires ValidSchema(rfc3339, schema) && Elements(fields) == StringFields(schema)
    ensures AllMarkFree(SearchPart(p, fields).conditions)
  {
    forall i | 0 <= i < |fields| ensures '?' !in fields[i] {
      assert fields[i] in Elements(fields);
      NameMarkFree(fields[i]);
    }
  }

  lemma OperatorMarkFree(op: string)
    ensures '?' !in SqlOperator(op)
  {
  }

  lemma ClauseMarkFree(env: Env, field: string, spec: FieldSpec, op: string, value: string)
    requires '?' !in field
    ensures AllMarkFree(BuildFilterClause(env, field, spec, op, value).conditions)
  {
    OperatorMarkFree(op);
    OperatorMarkFree("ne");
    OperatorMarkFree("eq");
    var c := BuildFilterClause(env, field, spec, op, value).conditions[0];
    assert c.OneIsOne? || c.lhs == Field(field);
    assert c.Compares? ==> c.op in {SqlOperator(op), SqlOperator("eq"), SqlOperator("ne")};
    assert MarkFree(c);
  }

  lemma FilterMarkFree(env: Env, rfc3339: string -> bool, schema: Schema, p: ListParams)
    requires ValidSchema(rfc3339, schema)
    ensures AllMarkFree(FilterPart(env, schema, p).conditions)
  {
    if p.filterField.Some? && p.filterOp.Some? && p.filterValue.Some? && p.filterField.value in schema {
      var f := p.filterField.value;
      NameMarkFree(f);
      ClauseMarkFree(env, f, schema[f], p.filterOp.value, p.filterValue.value);
    }
  }

  lemma FixedMarkFree(app: string, tableId: string, owner: Option<string>, p: ListParams)
    ensures AllMarkFree(ScopePart(app, tableId, owner).conditions)
    ensures AllMarkFree(TitlePart(p).conditions) && AllMarkFree(DonePart(p).conditions)
  {
    OperatorMarkFree("eq");
    assert IsName("app_id") && IsName("table_id") && IsName("owner_user_id") && IsName("title") && IsName("done");
    NameMarkFree("app_id");
    NameMarkFree("table_id");
    NameMarkFree("owner_user_id");
    NameMarkFree("title");
    NameMarkFree("done");
  }

  lemma WhereMarkFree(
    env: Env, rfc3339: string -> bool, p: ListParams, schema: Schema, app: string, tableId: string,
    owner: Option<string>, fields: seq<string>)
    requires ValidSchema(rfc3339, schema) && Elements(fields) == StringFields(schema)
    ensures AllMarkFree(WherePart(env, p, schema, app, tableId, owner, fields).conditions)
  {
    SearchMarkFree(rfc3339, schema, p, fields);
    FilterMarkFree(env, rfc3339, schema, p);
    FixedMarkFree(app, tableId, owner, p);
    var a := ScopePart(app, tableId, owner).conditions;
    var b := a + SearchPart(p, fields).conditions;
    var c := b + TitlePart(p).conditions;
    MarkFreeAppend(a, SearchPart(p, fields).conditions);
    MarkFreeAppend(b, TitlePart(p).conditions);
    MarkFreeAppend(c, DonePart(p).conditions);
    MarkFreeAppend(c + DonePart(p).conditions, FilterPart(env, schema, p).conditions);
  }

  /** In the text sent to the database, the question marks are as many as the binds. */
  lemma PlaceholdersEqualBinds(
    env: Env, rfc3339: string -> bool, p: ListParams, schema: Schema, app: string, tableId: string,
    owner: Option<string>, fields: seq<string>)
    requires ValidSchema(rfc3339, schema) && Elements(fields) == StringFields(schema)
    ensures
      var part := WherePart(env, p, schema, app, tableId, owner, fields);
      Marks(JoinedSql(part.conditions, " AND ")) == |part.binds|
  {
    var part := WherePart(env, p, schema, app, tableId, owner, fields);
    WhereMarkFree(env, rfc3339, p, schema, app, tableId, owner, fields);
    JoinedMarks(part.conditions, " AND ");
    WhereBalanced(env, p, schema, app, tableId, owner, fields);
  }
}
