/**
 Runs after which a table is not reproduced by its own export: a default added
 to a field that stored rows lack, a policy that drops owners, and a deleted
 user whose rows must have an owner.
 */
module LossyRuns {
  import opened Common
  import opened Text
  import opened JsonValue
  import opened Schema
  import opened SchemaEvolution
  import opened DataStore
  import opened TableImport
  import opened TableExport
  import opened DataApi

  const ADMIN := Claims("u", "a", true)
  const KEY := TableKey("a", "t")
  const ADMINS := Policy(ADMIN_ONLY, None)
  const PRIVATE := Policy(OWNER_PRIVATE, None)

  function Text1(default: Option<Json>): Schema {
    map["f" := FieldSpec("string", false, None, default, None, None)]
  }

  const BARE := Text1(None)
  const WITH_DEFAULT := Text1(Some(Str("d")))

  function Definition(schema: Schema, policy: Policy): Table {
    Table("i", "T", schema, policy, "u", "n")
  }

  /** The store with that one table and perhaps one row without fields. */
  function Only(schema: Schema, policy: Policy, owner: Option<Option<string>>, users: set<string>): Store {
    Store(map[KEY := Definition(schema, policy)],
          if owner.None? then map[] else map["r" := StoredRow("a", "i", owner.value, map[], "n", "n")],
          users, {"u"})
  }

  lemma Names()
    ensures TableNameOf("t") == "t" && Trim("T") == "T" && Trim("u") == "u" && Trim("v") == "v"
    ensures ValidTableName("t")
  {
    assert IsName("t");
    NameIsNormal("t");
    TrimNoSpace("T");
    TrimNoSpace("u");
    TrimNoSpace("v");
    assert Utf8Length("t") == 1 by { assert "t"[1..] == ""; }
  }

  lemma Definitions(rfc3339: string -> bool)
    ensures ValidSchema(rfc3339, BARE) && ValidSchema(rfc3339, WITH_DEFAULT)
    ensures ValidPolicy(ADMINS) && ValidPolicy(PRIVATE)
  {
    assert IsName("f");
    assert "f" in BARE && "f" in WITH_DEFAULT;
  }

  lemma RunOneMore(env: Env, steps: seq<Step>, step: Step)
    ensures Run(env, steps + [step]) == Apply(env, Run(env, steps), step)
  {
    assert Init(steps + [step]) == steps;
  }

  // --- The steps ------------------------------------------------------------------------

  function Beginning(policy: Policy): seq<Step> {
    [AddUser("u"), AddUser("v"), CreateTableStep(ADMIN, "t", "T", BARE, policy, "i", "n")]
  }

  lemma UsersAdded(env: Env)
    ensures Run(env, [AddUser("u"), AddUser("v")]) == Store(map[], map[], {"u", "v"}, {})
  {
    RunOneMore(env, [], AddUser("u"));
    RunOneMore(env, [AddUser("u")], AddUser("v"));
    assert [] + [AddUser("u")] == [AddUser("u")];
    assert [AddUser("u")] + [AddUser("v")] == [AddUser("u"), AddUser("v")];
  }

  lemma TableMade(env: Env, policy: Policy)
    requires policy in {ADMINS, PRIVATE}
    ensures
      CreateTable(env.rfc3339, Store(map[], map[], {"u", "v"}, {}), ADMIN, "t", "T", BARE, policy, "i", "n").0 ==
      Only(BARE, policy, None, {"u", "v"})
  {
    Names();
    Definitions(env.rfc3339);
  }

  lemma BeginningMakes(env: Env, policy: Policy)
    requires policy in {ADMINS, PRIVATE}
    ensures Run(env, Beginning(policy)) == Only(BARE, policy, None, {"u", "v"})
  {
    var create := CreateTableStep(ADMIN, "t", "T", BARE, policy, "i", "n");
    UsersAdded(env);
    RunOneMore(env, [AddUser("u"), AddUser("v")], create);
    assert [AddUser("u"), AddUser("v")] + [create] == Beginning(policy);
    TableMade(env, policy);
  }

  function NewRow(): Step {
    CreateRowStep(ADMIN, "t", Obj(map[]), true, "r", "n")
  }

  lemma EmptyRowNormal(env: Env)
    ensures Normalize(env.rfc3339, BARE, Obj(map[])) == Some(map[])
  {
    assert WithDefaults(BARE, map[]) == map[];
  }

  lemma RowMade(env: Env, policy: Policy)
    requires policy in {ADMINS, PRIVATE}
    ensures
      Apply(env, Only(BARE, policy, None, {"u", "v"}), NewRow()) ==
      Only(BARE, policy, Some(OwnerForNewRow(ADMIN, policy)), {"u", "v"})
  {
    Names();
    EmptyRowNormal(env);
  }

  /** One row, imported for the user `v`, who never acts and so never appears in the audit log. */
  const FOREIGN := ImportRow(Some("r"), Some("v"), Obj(map[]), None, None)
  const REQUEST := ImportRequest(None, None, None, None, None, None, [FOREIGN])

  lemma ForeignRowPasses(env: Env)
    ensures
      var t := Definition(BARE, PRIVATE);
      && RowPasses(env.rfc3339, t, FOREIGN)
      && Prepared(env.rfc3339, "a", t, FOREIGN, "n") == StoredRow("a", "i", Some("v"), map[], "n", "n")
  {
    Names();
    EmptyRowNormal(env);
  }

  lemma RowImported(env: Env)
    ensures
      Import(env, Only(BARE, PRIVATE, None, {"u", "v"}), ADMIN, "t", REQUEST, "n") ==
      (Only(BARE, PRIVATE, Some(Some("v")), {"u", "v"}), Created, 1)
  {
    var s, after := Only(BARE, PRIVATE, None, {"u", "v"}), Only(BARE, PRIVATE, Some(Some("v")), {"u", "v"});
    Names();
    ForeignRowPasses(env);
    assert REQUEST.rows[0] == FOREIGN && |REQUEST.rows| == 1;
    assert ChecksPass(env, s, KEY, REQUEST);
    assert s.rows["r" := after.rows["r"]] == after.rows;
    assert InsertFrom(env, after, KEY, REQUEST.rows, 1, "n") == (after, Created, 1);
    assert InsertFrom(env, s, KEY, REQUEST.rows, 0, "n") == (after, Created, 1);
  }

  function Change(schema: Option<Schema>, policy: Option<Policy>): Step {
    UpdateTableStep(ADMIN, "t", None, schema, policy)
  }

  lemma RowPasses1(env: Env, policy: Policy, owner: Option<string>, schema: Schema)
    requires schema in {BARE, WITH_DEFAULT}
    ensures RowsPass(env.rfc3339, Only(BARE, policy, Some(owner), {"u", "v"}), "i", schema)
    ensures EvolutionAccepted(BARE, schema, |RowsOf(Only(BARE, policy, Some(owner), {"u", "v"}), "i")|)
  {
  }

  lemma SchemaChanged(env: Env)
    ensures
      Apply(env, Only(BARE, ADMINS, Some(None), {"u", "v"}), Change(Some(WITH_DEFAULT), None)) ==
      Only(WITH_DEFAULT, ADMINS, Some(None), {"u", "v"})
  {
    Names();
    Definitions(env.rfc3339);
    RowPasses1(env, ADMINS, None, WITH_DEFAULT);
  }

  lemma PolicyChanged(env: Env)
    ensures
      Apply(env, Only(BARE, PRIVATE, Some(Some("u")), {"u", "v"}), Change(None, Some(ADMINS))) ==
      Only(BARE, ADMINS, Some(Some("u")), {"u", "v"})
  {
    Names();
    Definitions(env.rfc3339);
    RowPasses1(env, PRIVATE, Some("u"), BARE);
  }

  // --- The runs -------------------------------------------------------------------------

  function DefaultAdded(): seq<Step> {
    Beginning(ADMINS) + [NewRow()] + [Change(Some(WITH_DEFAULT), None)]
  }

  function OwnersDropped(): seq<Step> {
    Beginning(PRIVATE) + [NewRow()] + [Change(None, Some(ADMINS))]
  }

  function OwnerDeleted(): seq<Step> {
    Beginning(PRIVATE) + [ImportStep(ADMIN, "t", REQUEST, "n")] + [DeleteUserStep(ADMIN, "v", true, false)]
  }

  lemma DefaultAddedEnds(env: Env)
    ensures Run(env, DefaultAdded()) == Only(WITH_DEFAULT, ADMINS, Some(None), {"u", "v"})
  {
    BeginningMakes(env, ADMINS);
    RunOneMore(env, Beginning(ADMINS), NewRow());
    RowMade(env, ADMINS);
    RunOneMore(env, Beginning(ADMINS) + [NewRow()], Change(Some(WITH_DEFAULT), None));
    SchemaChanged(env);
  }

  lemma OwnersDroppedEnds(env: Env)
    ensures Run(env, OwnersDropped()) == Only(BARE, ADMINS, Some(Some("u")), {"u", "v"})
  {
    BeginningMakes(env, PRIVATE);
    RunOneMore(env, Beginning(PRIVATE), NewRow());
    RowMade(env, PRIVATE);
    RunOneMore(env, Beginning(PRIVATE) + [NewRow()], Change(None, Some(ADMINS)));
    PolicyChanged(env);
  }

  lemma OwnerImported(env: Env)
    ensures
      Run(env, Beginning(PRIVATE) + [ImportStep(ADMIN, "t", REQUEST, "n")]) ==
      Only(BARE, PRIVATE, Some(Some("v")), {"u", "v"})
  {
    BeginningMakes(env, PRIVATE);
    RunOneMore(env, Beginning(PRIVATE), ImportStep(ADMIN, "t", REQUEST, "n"));
    RowImported(env);
  }

  lemma OwnerDeletedEnds(env: Env)
    ensures Run(env, OwnerDeleted()) == Only(BARE, PRIVATE, Some(None), {"u"})
  {
    var import_, delete := ImportStep(ADMIN, "t", REQUEST, "n"), DeleteUserStep(ADMIN, "v", true, false);
    OwnerImported(env);
    RunOneMore(env, Beginning(PRIVATE) + [import_], delete);
    UserGone();
  }

  lemma UserGone()
    ensures
      DeleteUser(Only(BARE, PRIVATE, Some(Some("v")), {"u", "v"}), ADMIN, "v", true, false).0 ==
      Only(BARE, PRIVATE, Some(None), {"u"})
  {
    var s := Only(BARE, PRIVATE, Some(Some("v")), {"u", "v"});
    assert !FallsWith(s, s.rows["r"], "v");
    assert WithoutUser(s, "v").tables == s.tables;
    assert s.users - {"v"} == {"u"};
  }

  // --- What their exports do -------------------------------------------------------------

  /** What importing the export of the one table answers and leaves. */
  ghost function RoundTripOf(
    env: Env, steps: seq<Step>, restoreTable: Option<bool>, now: string): (Store, Response, nat)
    requires ExportTable(env, Run(env, steps), ADMIN, "t").Some?
  {
    var s := Run(env, steps);
    Import(env, s, ADMIN, "t", ReplaceWith(ExportTable(env, s, ADMIN, "t").value, restoreTable), now)
  }

  lemma Exports(env: Env, s: Store)
    requires KEY in s.tables
    ensures KeyOf(ADMIN, "t") == KEY && ExportTable(env, s, ADMIN, "t").Some?
  {
    Names();
  }

  /** The one row comes back re-imported, if the policy accepts its owner. */
  lemma RowComesBack(env: Env, steps: seq<Step>, restoreTable: Option<bool>, now: string)
    requires
      var s := Run(env, steps);
      KEY in s.tables && "r" in s.rows && s.rows["r"].tableId == s.tables[KEY].id && OwnersAccepted(s, KEY)
    ensures ExportTable(env, Run(env, steps), ADMIN, "t").Some?
    ensures
      var s := Run(env, steps);
      var (after, response, n) := RoundTripOf(env, steps, restoreTable, now);
      response == Created && "r" in after.rows && after.rows["r"] == Reimported(env, s.tables[KEY], s.rows["r"], now)
  {
    var s := Run(env, steps);
    RunKeepsInv(env, steps);
    Exports(env, s);
    RoundTripSucceeds(env, s, ADMIN, "t", restoreTable, now);
    assert RoundTripped(env, s, KEY, now).rows["r"] == Reimported(env, s.tables[KEY], s.rows["r"], now);
  }

  lemma ReimportedForms(env: Env, now: string)
    ensures
      var s := Only(WITH_DEFAULT, ADMINS, Some(None), {"u", "v"});
      OwnersAccepted(s, KEY) && Reimported(env, s.tables[KEY], s.rows["r"], now).data == map["f" := Str("d")]
    ensures
      var s := Only(BARE, ADMINS, Some(Some("u")), {"u", "v"});
      OwnersAccepted(s, KEY) && Reimported(env, s.tables[KEY], s.rows["r"], now).owner == None
  {
    assert WithDefaults(WITH_DEFAULT, map[]) == map["f" := Str("d")];
  }

  /** A default added later appears in rows that never had the field. */
  lemma DefaultAppears(env: Env, restoreTable: Option<bool>, now: string)
    ensures
      var s := Run(env, DefaultAdded());
      && ExportTable(env, s, ADMIN, "t").Some? && "r" in s.rows && "f" !in s.rows["r"].data
      && var (after, response, n) := RoundTripOf(env, DefaultAdded(), restoreTable, now);
      response == Created && "r" in after.rows && after.rows["r"].data == map["f" := Str("d")]
  {
    DefaultAddedEnds(env);
    ReimportedForms(env, now);
    RowComesBack(env, DefaultAdded(), restoreTable, now);
  }

  /** A policy without owners clears the owners that rows were created with. */
  lemma OwnerDisappears(env: Env, restoreTable: Option<bool>, now: string)
    ensures
      var s := Run(env, OwnersDropped());
      && ExportTable(env, s, ADMIN, "t").Some? && "r" in s.rows && s.rows["r"].owner == Some("u")
      && var (after, response, n) := RoundTripOf(env, OwnersDropped(), restoreTable, now);
      response == Created && "r" in after.rows && after.rows["r"].owner == None
  {
    OwnersDroppedEnds(env);
    ReimportedForms(env, now);
    RowComesBack(env, OwnersDropped(), restoreTable, now);
  }

  /** When the owner of a private row is deleted, the table's export is refused, and nothing changes. */
  lemma ExportRefused(env: Env, restoreTable: Option<bool>, now: string)
    ensures
      var s := Run(env, OwnerDeleted());
      && ExportTable(env, s, ADMIN, "t").Some? && "r" in s.rows && s.rows["r"].owner == None
      && RoundTripOf(env, OwnerDeleted(), restoreTable, now) == (s, BadRequest, 0)
  {
    var s := Run(env, OwnerDeleted());
    OwnerDeletedEnds(env);
    RunKeepsInv(env, OwnerDeleted());
    Exports(env, s);
    ExportPassesChecks(env, s, ADMIN, "t", restoreTable);
    assert NormalizeImportOwner(s.tables[KEY].policy, s.rows["r"].owner).None?;
  }
}
