/**
 Listing rows: validated parameters are compiled to SQL conditions with
 positional binds.  This module gives the conditions their meaning in SQL's
 three-valued logic and proves that the compiled query selects exactly the rows
 that the parameters ask for.
 */
module RowQuery {
  import opened Common
  import opened JsonValue
  import opened Ordering
  import opened Schema
  import opened Like
  import opened DataStore

  const MAX_LIST_ROWS := 50

  datatype F64 = Finite(r: real) | Infinite(positive: bool) | NotANumber

  /** Number parsing, and how the database writes and rounds numbers and nested JSON. */
  datatype Env = Env(
    parseI64: string -> Option<int>,
    parseF64: string -> Option<F64>,
    intText: int -> string,
    realText: real -> string,
    jsonText: Json -> string,
    round: int -> real)

  type usize = x: int | 0 <= x < 0x1_0000_0000_0000_0000

  const TWO_63 := 0x8000_0000_0000_0000
  const TWO_64 := 0x1_0000_0000_0000_0000

  /** The cast of an unsigned 64-bit number to a signed one. */
  function AsI64(n: usize): int {
    if n < TWO_63 then n else n - TWO_64
  }

  /** Addition of signed 64-bit numbers, wrapping around. */
  function AddI64(a: int, b: int): int {
    if a + b >= TWO_63 then a + b - TWO_64 else if a + b < -TWO_63 then a + b + TWO_64 else a + b
  }

  datatype ListParams = ListParams(
    limit: Option<usize>,
    offset: Option<usize>,
    orderBy: Option<string>,
    order: Option<string>,
    search: Option<string>,
    titleContains: Option<string>,
    done: Option<bool>,
    filterField: Option<string>,
    filterOp: Option<string>,
    filterValue: Option<string>)

  // --- SQL values and conditions ---------------------------------------------------------

  datatype SqlValue = SqlNull | SqlInt(i: int) | SqlReal(r: real) | SqlInf(positive: bool) | SqlText(s: string)

  datatype Truth = Yes | No | Unknown

  datatype Bind = TextBind(s: string) | BoolBind(b: bool) | IntBind(i: int) | FloatBind(f: F64)

  datatype Operand = Column(name: string) | Field(name: string)

  /** Each comparison holds one placeholder. */
  datatype Condition =
    | Compares(lhs: Operand, op: string)
    | IsLike(lhs: Operand)
    | AnyOf(alternatives: seq<Condition>)
    | OneIsOne

  datatype RowQuery = RowQuery(
    conditions: seq<Condition>, binds: seq<Bind>, orderBy: Operand, descending: bool, limit: nat, offset: int)

  function BoundValue(b: Bind): SqlValue {
    match b
    case TextBind(s) => SqlText(s)
    case BoolBind(v) => SqlInt(if v then 1 else 0)
    case IntBind(i) => SqlInt(i)
    case FloatBind(Finite(r)) => SqlReal(r)
    case FloatBind(Infinite(positive)) => SqlInf(positive)
    case FloatBind(NotANumber) => SqlNull
  }

  /** What `json_extract` yields for a field that may be missing. */
  function Extracted(env: Env, row: Row, field: string): SqlValue {
    if field !in row then SqlNull
    else
      match row[field]
      case Null => SqlNull
      case Bool(b) => SqlInt(if b then 1 else 0)
      case Int(i) => if IsI64(i) then SqlInt(i) else SqlReal(env.round(i))
      case Float(r) => SqlReal(r)
      case Str(s) => SqlText(s)
      case _ => SqlText(env.jsonText(row[field]))
  }

  function OperandValue(env: Env, row: StoredRow, operand: Operand): SqlValue {
    match operand
    case Field(f) => Extracted(env, row.data, f)
    case Column(c) =>
      if c == "app_id" then SqlText(row.app)
      else if c == "table_id" then SqlText(row.tableId)
      else if c == "owner_user_id" then if row.owner.Some? then SqlText(row.owner.value) else SqlNull
      else if c == "created_at" then SqlText(row.createdAt)
      else if c == "updated_at" then SqlText(row.updatedAt)
      else SqlNull
  }

  datatype Sign = Minus | Zero | Plus

  /** The order of non-null values: numbers by size, then texts by code point. */
  function CompareValues(a: SqlValue, b: SqlValue): Sign {
    if a.SqlText? && b.SqlText? then if a.s == b.s then Zero else if Less(a.s, b.s) then Minus else Plus
    else if a.SqlText? then Plus
    else if b.SqlText? then Minus
    else if a.SqlInf? then if a == b then Zero else if a.positive then Plus else Minus
    else if b.SqlInf? then if b.positive then Minus else Plus
    else if NumberOf(a) == NumberOf(b) then Zero
    else if NumberOf(a) < NumberOf(b) then Minus
    else Plus
  }

  function NumberOf(a: SqlValue): real {
    if a.SqlInt? then a.i as real else if a.SqlReal? then a.r else 0.0
  }

  /** The order by which rows are sorted: nulls come first. */
  predicate AtMost(a: SqlValue, b: SqlValue) {
    a.SqlNull? || (!b.SqlNull? && CompareValues(a, b) != Plus)
  }

  lemma AtMostTotal(a: SqlValue, b: SqlValue)
    ensures AtMost(a, b) || AtMost(b, a)
  {
    if a.SqlText? && b.SqlText? {
      LessTotal(a.s, b.s);
    }
  }

  lemma TextAtMostTransitive(a: string, b: string, c: string)
    requires AtMost(SqlText(a), SqlText(b)) && AtMost(SqlText(b), SqlText(c))
    ensures AtMost(SqlText(a), SqlText(c))
  {
    if a != b && b != c {
      LessTransitive(a, b, c);
    }
  }

  lemma AtMostTransitive(a: SqlValue, b: SqlValue, c: SqlValue)
    requires AtMost(a, b) && AtMost(b, c)
    ensures AtMost(a, c)
  {
    if a.SqlText? && b.SqlText? && c.SqlText? {
      TextAtMostTransitive(a.s, b.s, c.s);
    }
  }

  predicate SignFits(op: string, s: Sign) {
    if op == "=" then s == Zero
    else if op == "!=" then s != Zero
    else if op == "<" then s == Minus
    else if op == "<=" then s != Plus
    else if op == ">" then s == Plus
    else s != Minus
  }

  function TruthOf(b: bool): Truth {
    if b then Yes else No
  }

  function AsText(env: Env, v: SqlValue): string {
    match v
    case SqlNull => ""
    case SqlInt(i) => env.intText(i)
    case SqlReal(r) => env.realText(r)
    case SqlInf(positive) => if positive then "Inf" else "-Inf"
    case SqlText(s) => s
  }

  function Both(a: Truth, b: Truth): Truth {
    if a == No || b == No then No else if a == Yes && b == Yes then Yes else Unknown
  }

  function Either(a: Truth, b: Truth): Truth {
    if a == Yes || b == Yes then Yes else if a == No && b == No then No else Unknown
  }

  // --- Evaluation, consuming binds from left to right ----------------------------------------

  function Placeholders(c: Condition): nat {
    match c
    case Compares(_, _) => 1
    case IsLike(_) => 1
    case AnyOf(alternatives) => PlaceholdersOf(alternatives)
    case OneIsOne => 0
  }

  function PlaceholdersOf(cs: seq<Condition>): nat {
    if cs == [] then 0 else Placeholders(cs[0]) + PlaceholdersOf(cs[1..])
  }

  function Eval(env: Env, c: Condition, row: StoredRow, binds: seq<Bind>): Truth
    requires |binds| == Placeholders(c)
    decreases c, 0
  {
    match c
    case Compares(lhs, op) =>
      var a, b := OperandValue(env, row, lhs), BoundValue(binds[0]);
      if a.SqlNull? || b.SqlNull? then Unknown else TruthOf(SignFits(op, CompareValues(a, b)))
    case IsLike(lhs) =>
      var a, b := OperandValue(env, row, lhs), BoundValue(binds[0]);
      if a.SqlNull? || b.SqlNull? then Unknown else TruthOf(LikeMatch(AsText(env, b), AsText(env, a)))
    case AnyOf(alternatives) => EvalAny(env, alternatives, row, binds)
    case OneIsOne => Yes
  }

  function EvalAny(env: Env, cs: seq<Condition>, row: StoredRow, binds: seq<Bind>): Truth
    requires |binds| == PlaceholdersOf(cs)
    decreases cs, 1
  {
    if cs == [] then No
    else
      var n := Placeholders(cs[0]);
      Either(Eval(env, cs[0], row, binds[..n]), EvalAny(env, cs[1..], row, binds[n..]))
  }

  function EvalAll(env: Env, cs: seq<Condition>, row: StoredRow, binds: seq<Bind>): Truth
    requires |binds| == PlaceholdersOf(cs)
  {
    if cs == [] then Yes
    else
      var n := Placeholders(cs[0]);
      Both(Eval(env, cs[0], row, binds[..n]), EvalAll(env, cs[1..], row, binds[n..]))
  }

  /** The `WHERE` clause keeps a row when it is true, not when it is unknown. */
  predicate Selects(env: Env, cs: seq<Condition>, binds: seq<Bind>, row: StoredRow) {
    |binds| == PlaceholdersOf(cs) && EvalAll(env, cs, row, binds) == Yes
  }

  lemma {:induction false} PlaceholdersAppend(a: seq<Condition>, b: seq<Condition>)
    ensures PlaceholdersOf(a + b) == PlaceholdersOf(a) + PlaceholdersOf(b)
  {
    if a == [] {
      assert a + b == b;
    } else {
      assert (a + b)[1..] == a[1..] + b;
      PlaceholdersAppend(a[1..], b);
    }
  }

  /** Conditions and binds may be pushed in step: the whole selects what both parts select. */
  lemma {:induction false} SelectsAppend(
    env: Env, a: seq<Condition>, b: seq<Condition>, ba: seq<Bind>, bb: seq<Bind>, row: StoredRow)
    requires |ba| == PlaceholdersOf(a) && |bb| == PlaceholdersOf(b)
    ensures |ba + bb| == PlaceholdersOf(a + b)
    ensures EvalAll(env, a + b, row, ba + bb) == Both(EvalAll(env, a, row, ba), EvalAll(env, b, row, bb))
  {
    PlaceholdersAppend(a, b);
    if a == [] {
      assert a + b == b && ba + bb == bb;
    } else {
      var n := Placeholders(a[0]);
      assert (a + b)[1..] == a[1..] + b;
      assert (ba + bb)[..n] == ba[..n] && (ba + bb)[n..] == ba[n..] + bb;
      SelectsAppend(env, a[1..], b, ba[n..], bb, row);
    }
  }

  lemma EvalSingle(env: Env, c: Condition, row: StoredRow, binds: seq<Bind>)
    requires |binds| == Placeholders(c)
    ensures PlaceholdersOf([c]) == |binds| && EvalAll(env, [c], row, binds) == Eval(env, c, row, binds)
  {
    assert [c][1..] == [] && binds[..|binds|] == binds && binds[|binds|..] == [];
  }
}
