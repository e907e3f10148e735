/**
 What the audit log does to the deletion of users: whoever created a table, or
 a row other than by import, can no longer be deleted.
 */
module Accountability {
  import opened Text
  import opened Schema
  import opened DataStore
  import opened TableImport
  import opened DataApi

  /** The audit log names existing users only, among them the creators of all tables. */
  ghost predicate CreatorsAudited(s: Store) {
    s.audited <= s.users && forall k :: k in s.tables ==> s.tables[k].createdBy in s.audited
  }

  /** It also names the owners of all rows. */
  ghost predicate OwnersAudited(s: Store) {
    forall r :: r in s.rows && s.rows[r].owner.Some? ==> s.rows[r].owner.value in s.audited
  }

  /** The tables of `after` have the creators they had before. */
  ghost predicate SameCreators(s: Store, after: Store) {
    forall k :: k in after.tables ==> k in s.tables && after.tables[k].createdBy == s.tables[k].createdBy
  }

  lemma SameCreatorsAudited(s: Store, after: Store)
    requires CreatorsAudited(s) && SameCreators(s, after) && s.audited <= after.audited <= after.users
    ensures CreatorsAudited(after)
  {
  }

  lemma {:induction false} InsertLoopFrame(env: Env, s: Store, key: TableKey, rows: seq<ImportRow>, i: nat, now: string)
    requires key in s.tables && i <= |rows|
    ensures
      var after := InsertFrom(env, s, key, rows, i, now).0;
      after.tables == s.tables && after.users == s.users && after.audited == s.audited
    decreases |rows| - i
  {
    if i < |rows| && RowPasses(env.rfc3339, s.tables[key], rows[i]) {
      var row := Prepared(env.rfc3339, key.app, s.tables[key], rows[i], now);
      if CanInsert(s, IdFor(env, rows, i), row.owner) {
        InsertLoopFrame(env, s.(rows := s.rows[IdFor(env, rows, i) := row]), key, rows, i + 1, now);
      }
    }
  }

  lemma ReadyStoreFrame(env: Env, s: Store, key: TableKey, req: ImportRequest)
    requires key in s.tables && ReadyStore(env, s, key, req).Some?
    ensures
      var ready := ReadyStore(env, s, key, req).value;
      key in ready.tables && SameCreators(s, ready) && ready.users == s.users && ready.audited == s.audited
  {
  }

  /** An import may redefine its table, but leaves creators, users and the audit log alone. */
  lemma ImportFrame(env: Env, s: Store, claims: Claims, name: string, req: ImportRequest, now: string)
    requires Inv(env.rfc3339, s)
    ensures
      var after := Import(env, s, claims, name, req, now).0;
      SameCreators(s, after) && after.users == s.users && after.audited == s.audited
  {
    OnlyInsertsWrite(env, s, claims, name, req, now);
    if Import(env, s, claims, name, req, now).1 in {Created, Conflict} {
      InsertingImportFrame(env, s, claims, name, req, now);
    }
  }

  lemma InsertingImportFrame(env: Env, s: Store, claims: Claims, name: string, req: ImportRequest, now: string)
    requires claims.isAdmin && KeyOf(claims, name) in s.tables
    requires ReadyStore(env, s, KeyOf(claims, name), req).Some?
    ensures
      var after := Import(env, s, claims, name, req, now).0;
      SameCreators(s, after) && after.users == s.users && after.audited == s.audited
  {
    var key := KeyOf(claims, name);
    ReadyStoreFrame(env, s, key, req);
    ImportRunsLoop(env, s, claims, name, req, now);
    InsertLoopFrame(env, ReadyStore(env, s, key, req).value, key, req.rows, 0, now);
  }

  lemma CreateTableKeepsCreators(env: Env, s: Store, step: Step)
    requires CreatorsAudited(s) && step.CreateTableStep?
    ensures CreatorsAudited(Apply(env, s, step))
  {
  }

  /** Tables keep their creators, users stay, and at most the actor is added to the audit log. */
  ghost predicate OnlyAudits(s: Store, after: Store) {
    SameCreators(s, after) && after.users == s.users && s.audited <= after.audited <= s.audited + s.users
  }

  lemma ChangeTableFrame(env: Env, s: Store, step: Step)
    requires step.UpdateTableStep? || step.DeleteTableStep?
    ensures OnlyAudits(s, Apply(env, s, step))
  {
  }

  lemma CreateRowFrame(env: Env, s: Store, step: Step)
    requires step.CreateRowStep?
    ensures OnlyAudits(s, Apply(env, s, step))
  {
  }

  lemma ChangeRowFrame(env: Env, s: Store, step: Step)
    requires step.UpdateRowStep? || step.DeleteRowStep?
    ensures OnlyAudits(s, Apply(env, s, step))
  {
  }

  lemma UserStepKeepsCreators(env: Env, s: Store, step: Step)
    requires CreatorsAudited(s) && (step.AddUser? || step.DeleteUserStep?)
    ensures CreatorsAudited(Apply(env, s, step))
  {
    SameCreatorsAudited(s, Apply(env, s, step));
  }

  lemma ApplyKeepsCreators(env: Env, s: Store, step: Step)
    requires Inv(env.rfc3339, s) && CreatorsAudited(s)
    ensures CreatorsAudited(Apply(env, s, step))
  {
    if step.AddUser? || step.DeleteUserStep? {
      UserStepKeepsCreators(env, s, step);
    } else if step.CreateTableStep? {
      CreateTableKeepsCreators(env, s, step);
    } else {
      OtherStepFrame(env, s, step);
      SameCreatorsAudited(s, Apply(env, s, step));
    }
  }

  lemma OtherStepFrame(env: Env, s: Store, step: Step)
    requires Inv(env.rfc3339, s) && !step.AddUser? && !step.DeleteUserStep? && !step.CreateTableStep?
    ensures OnlyAudits(s, Apply(env, s, step))
  {
    if step.ImportStep? {
      ImportFrame(env, s, step.claims, step.name, step.req, step.now);
    } else if step.UpdateTableStep? || step.DeleteTableStep? {
      ChangeTableFrame(env, s, step);
    } else if step.CreateRowStep? {
      CreateRowFrame(env, s, step);
    } else {
      ChangeRowFrame(env, s, step);
    }
  }

  lemma {:induction false} RunKeepsCreators(env: Env, steps: seq<Step>)
    ensures CreatorsAudited(Run(env, steps))
  {
    if steps != [] {
      RunKeepsCreators(env, Init(steps));
      RunKeepsInv(env, Init(steps));
      ApplyKeepsCreators(env, Run(env, Init(steps)), Last(steps));
    }
  }

  /** In every run, a user who can be deleted created no table: the deletion only takes owners off rows. */
  lemma DeletionSparesTables(env: Env, steps: seq<Step>, claims: Claims, user: string, found: bool, elsewhere: bool)
    requires DeleteUser(Run(env, steps), claims, user, found, elsewhere).1 == Okay
    ensures
      var s, after := Run(env, steps), DeleteUser(Run(env, steps), claims, user, found, elsewhere).0;
      && after.tables == s.tables && after.rows.Keys == s.rows.Keys
      && forall r :: r in s.rows ==> after.rows[r] == Disowned(s.rows[r], user)
  {
    var s := Run(env, steps);
    RunKeepsCreators(env, steps);
    assert forall r :: r in s.rows ==> !FallsWith(s, s.rows[r], user);
    assert WithoutUser(s, user).tables == s.tables;
  }

  // --- Owners --------------------------------------------------------------------------

  /** Every owned row was owned by the same user before, and nobody leaves the audit log. */
  ghost predicate NoNewOwners(s: Store, after: Store) {
    && s.audited <= after.audited
    && forall r :: r in after.rows && after.rows[r].owner.Some? ==>
         r in s.rows && s.rows[r].owner == after.rows[r].owner
  }

  lemma NoNewOwnersAudited(s: Store, after: Store)
    requires OwnersAudited(s) && NoNewOwners(s, after)
    ensures OwnersAudited(after)
  {
  }

  lemma DefineTableNoNewOwners(env: Env, s: Store, step: Step)
    requires step.CreateTableStep? || step.UpdateTableStep?
    ensures NoNewOwners(s, Apply(env, s, step))
  {
    assert Apply(env, s, step).rows == s.rows;
  }

  lemma DeleteTableNoNewOwners(env: Env, s: Store, step: Step)
    requires step.DeleteTableStep?
    ensures NoNewOwners(s, Apply(env, s, step))
  {
  }

  lemma RowStepNoNewOwners(env: Env, s: Store, step: Step)
    requires step.UpdateRowStep? || step.DeleteRowStep?
    ensures NoNewOwners(s, Apply(env, s, step))
  {
  }

  lemma UserStepNoNewOwners(env: Env, s: Store, step: Step)
    requires step.AddUser? || step.DeleteUserStep?
    ensures NoNewOwners(s, Apply(env, s, step))
  {
  }

  lemma StepKeepsOwners(env: Env, s: Store, step: Step)
    requires OwnersAudited(s) && !step.ImportStep? && !step.CreateRowStep?
    ensures OwnersAudited(Apply(env, s, step))
  {
    if step.AddUser? || step.DeleteUserStep? {
      UserStepNoNewOwners(env, s, step);
    } else if step.UpdateRowStep? || step.DeleteRowStep? {
      RowStepNoNewOwners(env, s, step);
    } else if step.DeleteTableStep? {
      DeleteTableNoNewOwners(env, s, step);
    } else {
      DefineTableNoNewOwners(env, s, step);
    }
    NoNewOwnersAudited(s, Apply(env, s, step));
  }

  lemma CreateRowKeepsOwners(env: Env, s: Store, step: Step)
    requires OwnersAudited(s) && step.CreateRowStep?
    ensures OwnersAudited(Apply(env, s, step))
  {
  }

  lemma {:induction false} ImportFreeRunKeepsOwners(env: Env, steps: seq<Step>)
    requires forall i :: 0 <= i < |steps| ==> !steps[i].ImportStep?
    ensures OwnersAudited(Run(env, steps))
  {
    if steps != [] {
      assert forall i :: 0 <= i < |Init(steps)| ==> Init(steps)[i] == steps[i];
      ImportFreeRunKeepsOwners(env, Init(steps));
      if Last(steps).CreateRowStep? {
        CreateRowKeepsOwners(env, Run(env, Init(steps)), Last(steps));
      } else {
        StepKeepsOwners(env, Run(env, Init(steps)), Last(steps));
      }
    }
  }

  /** Without imports, no user who owns anything can be deleted: a deletion changes no row and no table. */
  lemma ImportFreeDeletionHarmless(
    env: Env, steps: seq<Step>, claims: Claims, user: string, found: bool, elsewhere: bool)
    requires forall i :: 0 <= i < |steps| ==> !steps[i].ImportStep?
    requires DeleteUser(Run(env, steps), claims, user, found, elsewhere).1 == Okay
    ensures
      var s, after := Run(env, steps), DeleteUser(Run(env, steps), claims, user, found, elsewhere).0;
      after.tables == s.tables && after.rows == s.rows
  {
    DeletionSparesTables(env, steps, claims, user, found, elsewhere);
    ImportFreeRunKeepsOwners(env, steps);
  }
}
