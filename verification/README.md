# A verified model of Peanut's core

Peanut is a self-hosted backend written in Rust, with a TypeScript SDK. This
project models its state machines and algorithms in Dafny and proves what they
guarantee over all inputs, all runs and all reachable states.

Each HTTP handler or worker statement is one step over an in-memory store of
maps and sets that stand for SQL tables. Where the program changes state in
place, a class holds that state and each method is proved equal to a step
function on the value of the state; the theorems are about those functions and
about runs of them. Loops that accumulate a result or update state are loops
here too; loops that only check every element are quantified predicates, except
where a method beside the predicate shows the loop.

| part | modules | central results |
|---|---|---|
| typed data layer | `Schema`, `SchemaEvolution`, `DataStore`, `TableImport`, `TableExport`, `DataApi`, `RoundTrip`, `LossyRuns`, `Accountability`, `DataEffects`, `ImportEffects` | rows conform to their table's schema in every run; a refused import changes nothing; an export imports back exactly if and only if no row lacks a default and all owners fit, and which steps keep it so |
| row queries | `Like`, `RowQuery`, `QueryBuilder`, `ListRows` | the compiled conditions, evaluated in three-valued logic, select exactly the rows asked for; when listed rows are those that may be read singly |
| sessions and passwords | `RefreshTokens`, `AuthEffects` | the tokens of a session form one chain; nothing revoked or replaced is ever accepted again |
| push queue | `Backoff`, `Deliveries`, `PushQueue`, `PushWorker`, `QueueEffects` | bounds and waiting times under crashes; completion order does not matter; exactly when dead subscriptions are deleted and no others |
| functions | `Redaction`, `Invocations` | which secrets redaction removes whatever else is on the list, and which can leak; retry trees |
| rate limits | `RateLimit` | exact bounds for every closed window of every history |
| restore at start-up | `Restore` | the original database survives all crashes, if and only if time stamps differ |
| streams | `Text`, `Framing` | the same payloads for every way of cutting the stream |
| audit log | `Ordering`, `AuditLog` | keyset paging is complete, without repetition, and ends |

`Common` and `JsonValue` hold shared definitions.

The modules `DataEffects`, `ImportEffects`, `AuthEffects` and `QueueEffects` say
for every operation which answer it gives when, what an accepted request changes
and what stays as it was, in terms of the request and the state before and after
and with all names, times and limits written out. They fix the meaning of the
step functions on which the theorems over whole runs rest.

Where code and expectation part, the code is kept and the exact condition is
proved as an equivalence, with lemmas that construct failing inputs:

- `Redaction.CompleteIffMaskable` (`MeetingMaskLeaks`, `StarInSecretCanLeak`)
- `Restore.DistinctStampsCondition` (`RepeatedStampLoses`)
- `Deliveries.ExactDeletionCondition`, `UserTargetedExactIff` and `BroadcastExactIff`
  (`SharedEndpointSurvives`, `DoubleIsDeleted`, `CrossAppDeleted`)
- `SchemaEvolution.AcceptedKeepsRowsIffGentle` (`TighterLengthLosesRow`, `NewlyMandatoryLosesRow`)
- `TableExport.RoundTripExact` and `RoundTrip.StepTidyIffSteady`
  (`LossyRuns.DefaultAppears`, `OwnerDisappears`, `ExportRefused`)
- `RoundTrip.FitCarriesOverIff` (`NewDefaultUnfits`, `UnsuitableOwnersUnfit`)
- `RefreshTokens.AnswersAlikeIffLogged` (`MailLabelReveals`, `InlineTokenReveals`)
- `ListRows.ListedAreReadableIff` and `ReadableAreListedIff` (`CustomOwnerRuleLists`),
  `OffsetHonouredIff` and `HasMoreHonestIff`
- `AuditLog.CursorRoundTrip`

Assumptions that hold throughout: handlers are atomic and the database does not
fail (except where a crash is a step), clocks do not run backwards, and foreign
keys are enforced, so that a row can only be inserted under a free id and with
an owner who exists.

## Model

| member | source | states |
|---|---|---|
| `Schema.NormalizeRowData` | src/api/data/internal.rs:373-405 | the loop that moves fields from the input to the output accepts exactly the well-typed objects with every mandatory field, and fills in exactly the missing defaults |
| `Schema.NormalMeansDefaultsPresent` | src/api/data/internal.rs:373-405 | a row is its own normal form if and only if it conforms and no field with a default is missing |
| `Schema.NormalizeIdempotent` | src/api/data/internal.rs:230-288 | for a validated schema normalising twice is normalising once, and given values are kept |
| `Schema.PatchAcceptedIffWellTyped` | src/api/data/rows.rs:391-399 | merging a patch into a conforming row is accepted if and only if the patch itself is well typed |
| `Schema.NewOwnerSurvivesImport` | src/api/data/internal.rs:460-515 | the owner given to a new row is a fixed point of import owner normalisation under the same valid policy |
| `Schema.ImportOwnerIdempotent` | src/api/data/internal.rs:478-515 | import owner normalisation is idempotent |
| `Schema.OwnerKeptIffFits` | src/api/data/internal.rs:478-515 | an import keeps an owner as it is if and only if the owner is present, absent or not blank as the policy needs it |
| `DataEffects.NormalizeMeans` | src/api/data/internal.rs:373-405 | which submitted data a schema refuses, and what it stores of the rest: the given values, the defaults of the others, nothing else |
| `DataEffects.ValuesByType` | src/api/data/internal.rs:407-458 | which values each type of field takes |
| `DataEffects.SchemaRules` | src/api/data/internal.rs:230-288 | which schemas are valid |
| `DataEffects.PolicyRules` | src/api/data/internal.rs:290-334 | which policies are valid |
| `DataEffects.TableNames` | src/api/data/internal.rs:214-228 | which table names are valid |
| `DataEffects.NewRowOwner` | src/api/data/internal.rs:460-476 | to whom a new row belongs under each policy |
| `DataEffects.AccessByOwnRule` | src/api/data/access.rs:10-85 | reading, updating, deleting and creating each go by their own rule, and by the mode only where there is none |
| `DataEffects.EvolutionRules` | src/api/data/query.rs:290-329 | which changes of schema the evolution check lets pass |
| `SchemaEvolution.ValidateSchemaEvolution` | src/api/data/query.rs:290-329 | the two loops refuse, for a table with rows, exactly removed fields, changed types and new mandatory fields |
| `SchemaEvolution.GentleKeepsRow` | src/api/data/query.rs:290-329 | an accepted, gentle evolution keeps each conforming row conforming |
| `SchemaEvolution.TighterLengthLosesRow` | src/api/data/internal.rs:413-422 | a tightened length limit makes some conforming row non-conforming, although the evolution check accepts it |
| `SchemaEvolution.NewlyMandatoryLosesRow` | src/api/data/internal.rs:394-400 | so does making a kept field mandatory |
| `SchemaEvolution.AcceptedKeepsRowsIffGentle` | src/api/data/query.rs:290-329 | an evolution accepted for a table with rows keeps every possible row if and only if no text limit tightens and no kept field becomes mandatory |
| `DataStore.GentleUpdateAccepted` | src/api/data/tables.rs:139-243 | in a consistent store, a gentle change that passes the evolution check is never refused because of stored rows |
| `DataStore.CreateTableKeepsInv` | src/api/data/tables.rs:38-113 | creating a table keeps the store invariant |
| `DataStore.RedefineKeepsInv` | src/api/data/tables.rs:174-197 | a definition may be replaced by one that all stored rows pass |
| `DataStore.UpdateTableKeepsInv` | src/api/data/tables.rs:139-243 | updating a table keeps the store invariant, because stored rows are checked against the new schema |
| `DataStore.DeleteTableKeepsInv` | src/api/data/tables.rs:245-299 | deleting a table with its rows keeps the store invariant |
| `DataStore.DeleteUserKeepsInv` | src/api/auth/admin_users.rs:203-300 | deleting a user, with the user's tables and the user's name on other rows, keeps the store invariant |
| `DataEffects.CreateTableEffect` | src/api/data/tables.rs:38-113 | when creating a table is forbidden, bad, conflicting or accepted, and that it adds exactly the table as given |
| `DataEffects.UpdateTableEffect` | src/api/data/tables.rs:139-243 | when an update is accepted, stored rows included, and that it changes exactly the given parts of that table |
| `DataEffects.DeleteTableEffect` | src/api/data/tables.rs:245-299 | that a deletion removes the table and all its rows, and nothing else |
| `DataEffects.DeleteUserEffect` | src/api/auth/admin_users.rs:203-300 | when a user is deleted, which tables go, and that other rows only lose that owner |
| `Accountability.DeletionSparesTables` | src/api/data/tables.rs:91-100 | in every run, a user whom the audit log lets be deleted created no table, so a deletion removes no table and no row and only takes the user's name off rows |
| `Accountability.ImportFreeDeletionHarmless` | src/api/data/rows.rs:109-118 | in every run without imports, a user who can be deleted owns nothing: the deletion changes no table and no row |
| `DataStore.CreateRowKeepsInv` | src/api/data/rows.rs:3-138 | creating a row keeps the store invariant |
| `DataStore.UpdateRowKeepsInv` | src/api/data/rows.rs:342-452 | patching a row keeps the store invariant |
| `DataStore.DeleteRowKeepsInv` | src/api/data/rows.rs:454-548 | deleting a row keeps the store invariant |
| `DataStore.CreateRowEffect` | src/api/data/rows.rs:3-138 | a created row holds the given values, the defaults of the others and nothing else, under a free id; nothing else changes |
| `DataStore.UpdateRowEffect` | src/api/data/rows.rs:342-452 | an accepted patch sets its fields, keeps the other fields, the owner and the creation time, and changes no other row |
| `DataEffects.CreateRowAnswers` | src/api/data/rows.rs:3-138 | which answer a creation gets when, and the owner and times of the row |
| `DataEffects.UpdateRowAnswers` | src/api/data/rows.rs:342-452 | when a patch is not found or forbidden, and that a refused one changes nothing |
| `DataEffects.DeleteRowEffect` | src/api/data/rows.rs:454-548 | when a deletion is not found or forbidden, that an accepted one removes the row and nothing else, and any other changes nothing |
| `ImportEffects.StepStaysHome` | src/api/data/internal.rs:541-560 | whatever a caller does to tables and rows, imports included, those of other applications stay as they are |
| `DataStore.PatchRefusedIffIllTyped` | src/api/data/rows.rs:391-399 | a permitted patch to a stored row is a bad request if and only if it is not a well-typed object |
| `TableImport.InsertLoop` | src/api/data/import_export.rs:298-362 | with rows that pass, the insert loop is stopped only by a row that cannot be inserted, and has then added exactly the rows before it |
| `TableImport.RestoreAfterClear` | src/api/data/import_export.rs:280-296 | in replace mode the repeated check of the definition cannot fail any more |
| `TableImport.ImportInserts` | src/api/data/import_export.rs:266-376 | an import that starts inserting adds exactly the rows before the first conflict, normalised, under their ids, and answers created or conflict accordingly |
| `ImportEffects.AppendKeepsRows` | src/api/data/import_export.rs:161-164 | in append mode, which is the default, every stored row stays as it is |
| `ImportEffects.ReplaceClearsTable` | src/api/data/import_export.rs:266-278 | in replace mode no old row of the table stays unless the request brought it again, and rows of other tables are untouched |
| `ImportEffects.DefinitionAfterImport` | src/api/data/import_export.rs:280-296 | the definition afterwards is the one sent if it was to be restored, and the old one otherwise |
| `ImportEffects.ImportedRows` | src/api/data/import_export.rs:298-376 | the rows up to the first conflict are stored under their ids with the given values, the defaults, a fitting owner and the time of the import |
| `ImportEffects.ImportAnswers` | src/api/data/import_export.rs:141-264 | when an import is forbidden, not found, a dry run or refused for its mode |
| `ImportEffects.ChecksumEnforced` | src/api/data/import_export.rs:167-201 | a request to be verified is bad unless version, row count and checksum are right |
| `ImportEffects.UnsuitableRowRefused` | src/api/data/import_export.rs:233-243 | a row that does not suit the table or lacks a needed owner makes the request bad |
| `ImportEffects.UnsuitableDefinitionRefused` | src/api/data/internal.rs:11-27 | so does an invalid definition, one for another table, or one the evolution check refuses in append mode |
| `ImportEffects.PlainImportCreated` | src/api/data/import_export.rs:298-376 | a plain request with suitable rows, free distinct ids and existing owners is carried out |
| `TableImport.BadRequestChangesNothing` | src/api/data/import_export.rs:161-362 | whichever branch answers bad request, in either mode, with or without restore, tables and rows are as before |
| `TableImport.OnlyInsertsWrite` | src/api/data/import_export.rs:135-376 | every answer but created and conflict leaves the store unchanged, and no other answer exists |
| `TableImport.RestoreKeepsInv` | src/api/data/internal.rs:66-106 | a restored definition keeps the store invariant |
| `TableImport.ImportKeepsInv` | src/api/data/import_export.rs:135-376 | every import, also one cut short by a conflict, keeps the store invariant |
| `TableExport.ExportRowsExact` | src/api/data/import_export.rs:28-46 | an export lists every row of the table once, as stored, oldest first with ties by id |
| `TableExport.ExportAnswers` | src/api/data/import_export.rs:3-67 | who can export which table, and what definition, version, length and checksum the export names |
| `TableExport.ExportedRowsOldestFirst` | src/api/data/import_export.rs:28-46 | the exported rows are the stored ones, each once with all its columns, oldest first with ties by id |
| `TableExport.ChecksumOfExportPasses` | src/api/data/import_export.rs:69-133 | an export sent back passes checksum verification, whatever the checksum function is |
| `TableExport.ExportPassesChecks` | src/api/data/import_export.rs:161-243 | an export passes every check before the first write if and only if the policy accepts all owners |
| `TableExport.RoundTripSucceeds` | src/api/data/import_export.rs:266-376 | an export with accepted owners is imported completely, and the resulting store is given row by row |
| `TableExport.RoundTripExact` | src/api/data/import_export.rs:3-376 | exporting and importing in replace mode reproduces ids, owners and data if and only if no row lacks a field that has a default and every owner fits the current policy |
| `RoundTrip.DeleteUserTidy` | src/api/auth/admin_users.rs:203-300 | deleting a user keeps all rows reproducible if and only if the user owns nothing that stays in a table which must have owners |
| `RoundTrip.FitCarriesOverIff` | src/api/data/internal.rs:387-402 | a new definition suits every row the old one could have if and only if no field that rows could lack gets a default and owners are needed as before or become optional |
| `RoundTrip.SuitedDefinitionFitsRows` | src/api/data/tables.rs:139-243 | so, judged by the two definitions alone, such a change is steady whatever rows are stored |
| `RoundTrip.StepTidyIffSteady` | src/api/data/import_export.rs:266-376 | from a store whose rows all fit, a step leads to such a store if and only if it is steady: new rows have no blank owner, a new definition suits the rows it finds, a deleted user owns nothing that must have an owner |
| `RoundTrip.SteadyRunTidy` | src/api/data/internal.rs:460-515 | in every run of steady steps, user deletions included, no row lacks a default and all owners fit |
| `RoundTrip.SteadyRunRoundTrips` | src/api/data/import_export.rs:3-376 | after every such run, every table's export is accepted and reproduces the table |
| `LossyRuns.DefaultAppears` | src/api/data/import_export.rs:300-303 | a run after which the round trip changes data: a default was added to a field that a stored row lacks |
| `LossyRuns.OwnerDisappears` | src/api/data/internal.rs:512-512 | a run after which the round trip clears an owner: the policy was changed to one without owners |
| `LossyRuns.ExportRefused` | src/api/auth/admin_users.rs:203-300 | a run after which the export is answered with bad request: a private row was imported for a user, who was then deleted |
| `DataApi.ApplyKeepsInv` | src/api/data/rows.rs:3-548 | every step keeps the store invariant |
| `DataApi.RunKeepsInv` | src/api/data/tables.rs:38-299 | every run from the empty store keeps it |
| `DataApi.StoredRowsNormalise` | src/api/data/internal.rs:336-360 | in every run each stored row still normalises under its table's current schema |
| `DataApi.MergePatch` | src/api/data/rows.rs:391-395 | the merge loop overrides the stored fields by those of the patch and keeps the others |
| `DataApi.DataApi.ValidateRowsAgainstSchema` | src/api/data/internal.rs:336-360 | the loop over stored rows accepts exactly the schemas that all rows of the table pass |
| `DataApi.DataApi.CreateTableDefinition` | src/api/data/tables.rs:38-113 | the handler is the step `CreateTable` |
| `DataApi.DataApi.UpdateTableDefinition` | src/api/data/tables.rs:139-243 | the handler, with its loops over fields and rows, is the step `UpdateTable` |
| `DataApi.DataApi.DeleteTableDefinition` | src/api/data/tables.rs:245-299 | the handler is the step `DeleteTable` |
| `DataApi.DataApi.DeleteUserAccount` | src/api/auth/admin_users.rs:203-300 | the handler, with the foreign keys of tables and rows, is the step `DeleteUser` |
| `DataApi.DataApi.CreateRowIn` | src/api/data/rows.rs:3-138 | the handler is the step `CreateRow` |
| `DataApi.DataApi.UpdateRowIn` | src/api/data/rows.rs:342-452 | the handler is the step `UpdateRow` |
| `DataApi.DataApi.DeleteRowIn` | src/api/data/rows.rs:454-548 | the handler is the step `DeleteRow` |
| `DataApi.DataApi.CheckImport` | src/api/data/import_export.rs:161-243 | the checks before the first write, row loop included, decide `ChecksPass` |
| `DataApi.DataApi.RestoreTableDefinition` | src/api/data/internal.rs:66-106 | restoring a definition re-checks it against the rows now stored and changes nothing when it refuses |
| `DataApi.DataApi.InsertImportRows` | src/api/data/import_export.rs:298-362 | the insert loop in place is `InsertFrom`, with the same count |
| `DataApi.DataApi.ImportRows` | src/api/data/import_export.rs:135-376 | the handler in place is the step `Import`, with the same answer and count |
| `Like.LikeTrailingPercent` | src/api/data/query.rs:216-219 | a pattern with `%` at its end matches exactly the texts with a matching beginning |
| `Like.LikeLeadingPercent` | src/api/data/query.rs:220-223 | a pattern with `%` in front matches exactly the texts with a matching end |
| `Like.LikeBothPercents` | src/api/data/query.rs:212-215 | a pattern between two `%` matches exactly the texts with a matching part |
| `Like.PlainValues` | src/api/data/query.rs:212-223 | for a value without wildcards these mean contains, starts with and ends with, ignoring ASCII case |
| `Like.Underscore` | src/api/data/query.rs:212-223 | an underscore in a value stands for any one character |
| `RowQuery.SelectsAppend` | src/api/data/query.rs:108-167 | pushing conditions and binds side by side means the three-valued conjunction of the parts, each with its own binds |
| `QueryBuilder.ScopeMeans` | src/api/data/query.rs:108-117 | application, table and owner conditions select exactly the rows in scope |
| `QueryBuilder.SearchMeans` | src/api/data/query.rs:119-142 | the search condition holds exactly when some text field contains the value |
| `QueryBuilder.FilterMeans` | src/api/data/query.rs:154-253 | for every accepted filter the condition holds exactly when the field is present and its value fits: typed for strings, numbers and booleans, as text for datetime and json fields |
| `QueryBuilder.DatetimeEqSelectsNothing` | src/api/data/query.rs:267-280 | since datetime filter values must be numeric but are compared with time stamps as text, equality selects no row at all |
| `QueryBuilder.AcceptedParams` | src/api/data/query.rs:18-99 | which list parameters are accepted, filters with operator and value by type included |
| `QueryBuilder.WhereSelectsWanted` | src/api/data/query.rs:101-190 | all conditions together select a well-typed row exactly when the request asks for it |
| `QueryBuilder.WhereBalanced` | src/api/data/query.rs:101-167 | whatever the schema and the parameters are, every placeholder has its bind |
| `QueryBuilder.BuildRowQuery` | src/api/data/query.rs:101-190 | placeholders always equal binds; for accepted parameters the query answers the request, and limit, order, direction and the offset, cast to a signed number, are as requested |
| `QueryBuilder.PlaceholdersEqualBinds` | src/api/data/query.rs:101-253 | for every valid schema and any parameters, the rendered SQL text has exactly as many question marks as there are binds |
| `ListRows.OutOfScopeNotSelected` | src/api/data/query.rs:108-117 | a row of another application, table or owner is never selected, whatever its data and the parameters are |
| `ListRows.QuerySelectsRequested` | src/api/data/rows.rs:179-217 | run over the whole store, the query selects exactly the requested rows of the table |
| `ListRows.ReadTableByRule` | src/api/data/access.rs:30-42 | who may list a table under each read rule and mode |
| `ListRows.SortRows` | src/api/data/query.rs:174-188 | the selected rows, each once, sorted by the column or field of the query |
| `ListRows.PrecedesAsAsked` | src/api/data/query.rs:174-188 | what that order is in terms of the rows: newest first by default, oldest first for `asc`, fields by number or text with missing values last when descending and first when ascending |
| `ListRows.ExecuteListRows` | src/api/data/rows.rs:165-275 | which answer a list request gets, the page of the requested rows at the cast offset with its rows in the order asked for, their total, and whether there are more in wrapping 64-bit arithmetic |
| `ListRows.OffsetHonouredIff` | src/api/data/query.rs:173-173 | the page is the one asked for, whatever is listed, if and only if the offset is below 2^63 |
| `ListRows.HasMoreHonestIff` | src/api/data/rows.rs:260-260 | `has_more` is true to the request, whatever the total is, if and only if offset plus limit is below 2^63 |
| `ListRows.PagesShowListing` | src/api/data/rows.rs:204-260 | while rows and the order of ties do not change, following `has_more` from page to page shows every row exactly once, in order |
| `ListRows.ListedAreReadableIff` | src/api/data/rows.rs:171-183 | a listing shows only rows the caller may read singly if and only if the caller is an administrator, the read rule is not `owner`, or the mode is private |
| `ListRows.ReadableAreListedIff` | src/api/data/access.rs:30-85 | it shows all of them if and only if the caller is an administrator, the mode is not private, or there is no read rule |
| `ListRows.CustomOwnerRuleLists` | src/api/data/rows.rs:179-183 | under a custom policy with read rule `owner` everybody lists rows that reading singly forbids |
| `ListRows.RequestedAreReadable` | src/api/data/rows.rs:307-314 | under that condition every row a request selects is readable for its caller |
| `RefreshTokens.OnlyLastIsActive` | src/api/auth.rs:564-577 | only the last token of a session's chain can be unrevoked |
| `RefreshTokens.RevokeKeepsChains` | src/api/auth.rs:366-412 | revoking any set of tokens keeps all chains |
| `RefreshTokens.RemovalKeepsChains` | src/api/auth/admin_users.rs:237-270 | whole sessions go with a deleted user, so the other chains stay |
| `RefreshTokens.IssueKeepsChains` | src/api/auth.rs:308-332 | a login opens a new chain under a new session name and keeps the others |
| `RefreshTokens.RotateExtendsChain` | src/api/auth.rs:334-364 | a rotation extends the chain of its session at the end and keeps the others |
| `RefreshTokens.HandleKeepsChains` | src/api/auth/public.rs:117-256 | every handler keeps all sessions chained |
| `RefreshTokens.HandleKeepsOneReset` | src/api/auth.rs:522-562 | every handler keeps at most one unconsumed reset token per application and user |
| `RefreshTokens.SessionsAreChains` | src/api/auth.rs:308-412 | in every run the tokens of a session form one chain with constant application and user, linked by replacement, all but the last revoked |
| `RefreshTokens.RevokedNeverAccepted` | src/api/auth.rs:564-577 | a revoked token is refused in every continuation of every run; if users are deleted in between, as long as the generator does not repeat the token |
| `RefreshTokens.DeletedUserLockedOut` | src/api/auth/admin_users.rs:237-270 | no token of a deleted user is accepted in any continuation that does not issue it again |
| `RefreshTokens.RefreshHandsOver` | src/api/auth/public.rs:166-223 | an accepted refresh revokes the token, links it to its successor, and leaves the successor active in the same session for the same user |
| `RefreshTokens.AcceptedOnce` | src/api/auth/public.rs:166-223 | a token accepted for a refresh is refused in every continuation |
| `AuthEffects.LoginEffect` | src/api/auth/public.rs:117-156 | a login is accepted exactly for an active member with the right password, adds one token for thirty days and nothing else |
| `AuthEffects.LoginRefusals` | src/api/auth/public.rs:117-156 | which refusal is given for which reason |
| `AuthEffects.RefreshAcceptedIff` | src/api/auth/public.rs:166-223 | a refresh is accepted exactly for an unrevoked, unexpired token of an active member |
| `AuthEffects.RefreshEffect` | src/api/auth.rs:334-364 | the new token lasts thirty days, the old one is revoked and linked, all others stay |
| `AuthEffects.InactiveRefreshRevokes` | src/api/auth/public.rs:166-223 | a deactivated user's refresh is refused and revokes the token alone |
| `AuthEffects.LogoutEffect` | src/api/auth/public.rs:232-256 | a logout revokes its token and changes nothing else |
| `AuthEffects.LogoutEnds` | src/api/auth/public.rs:232-256 | the logged-out token is refused in every continuation |
| `AuthEffects.RevokeSessionEffect` | src/api/auth.rs:397-412 | revoking a session revokes exactly its unrevoked tokens, and is not found exactly when there are none |
| `AuthEffects.RevokedSessionEnds` | src/api/auth/sessions.rs:35-59 | no token of a revoked session is accepted in any continuation |
| `AuthEffects.RevokeAllEffect` | src/api/auth.rs:382-395 | revoking all sessions revokes exactly the unrevoked tokens of that application and user |
| `RefreshTokens.SessionsEnd` | src/api/auth/password.rs:27-51 | after a password change, a reset or a revoke-all, no earlier token of that application and user is accepted in any continuation |
| `RefreshTokens.PasswordTakesEffect` | src/api/auth/password.rs:27-51 | after a change or reset the new password logs an active user in, with an active token of a new session |
| `AuthEffects.ChangePasswordEffect` | src/api/auth/password.rs:3-51 | a change needs the current password; it sets the new one, revokes exactly the user's unrevoked tokens and changes nothing else |
| `AuthEffects.ForgotPasswordEffect` | src/api/auth.rs:522-551 | a request leaves one reset token for half an hour and consumes the user's earlier ones only |
| `AuthEffects.ForgotPasswordUnknown` | src/api/auth/password.rs:72-83 | an unknown user's request changes nothing |
| `AuthEffects.ResetPasswordEffect` | src/api/auth/password.rs:144-196 | a reset is accepted exactly with an unconsumed, unexpired token; it consumes it, sets that user's password and revokes exactly that user's tokens |
| `AuthEffects.DeleteUserEffect` | src/api/auth/admin_users.rs:203-300 | a deleted user goes with all tokens and resets, and nothing of anybody else |
| `RefreshTokens.ResetTokenWorksOnce` | src/api/auth/password.rs:144-196 | a reset token that worked is refused in every continuation |
| `RefreshTokens.AtMostOneReset` | src/api/auth.rs:522-592 | in every run at most one reset token per application and user is unconsumed |
| `RefreshTokens.AnswersAlikeIffLogged` | src/api/auth/password.rs:66-131 | asking for a reset answers alike for known and unknown users, token and delivery label included, if and only if there is no mail server and tokens go to the log |
| `RefreshTokens.MailLabelReveals` | src/api/auth/password.rs:87-110 | with a mail server the label `email` marks a known user, although no token is shown |
| `RefreshTokens.InlineTokenReveals` | src/api/auth.rs:504-520 | with inline delivery the answer holds the token, and it resets the password |
| `RefreshTokens.AuthStore.LoginForApp` | src/api/auth/public.rs:117-156 | the handler is the step `Login` |
| `RefreshTokens.AuthStore.RotateToken` | src/api/auth.rs:334-364 | the successor is inserted, then the predecessor is revoked and linked to it |
| `RefreshTokens.AuthStore.RefreshSessionForApp` | src/api/auth/public.rs:166-223 | the handler is the step `Refresh`, revoking the token of an inactive user |
| `RefreshTokens.AuthStore.LogoutForApp` | src/api/auth/public.rs:232-256 | the handler is the step `Logout` |
| `RefreshTokens.AuthStore.RevokeSessionForUser` | src/api/auth.rs:397-412 | the handler is the step `RevokeSession` |
| `RefreshTokens.AuthStore.RevokeAllSessions` | src/api/auth/sessions.rs:61-83 | the handler is the step `RevokeAll` |
| `RefreshTokens.AuthStore.ChangePasswordOf` | src/api/auth/password.rs:3-51 | the handler is the step `ChangePassword` |
| `RefreshTokens.AuthStore.ForgotPasswordForApp` | src/api/auth/password.rs:61-134 | the handler is the step `ForgotPassword`, with the token and the delivery label of the answer |
| `RefreshTokens.AuthStore.ResetPasswordForApp` | src/api/auth/password.rs:144-196 | the handler is the step `ResetPassword` |
| `RefreshTokens.AuthStore.DeleteAdminUser` | src/api/auth/admin_users.rs:203-300 | the handler is the step `DeleteUser` |
| `Backoff.RetryBackoffSeconds` | src/push/worker.rs:413-427 | in checked 64-bit arithmetic nothing overflows, and the delay lies in 24..36, 48..72 or 96..120 by attempt |
| `Backoff.LaterAttemptWaitsLonger` | src/push/worker.rs:413-427 | a later attempt waits strictly longer, whatever the item ids are |
| `Backoff.DelayFromSeed` | src/push/worker.rs:413-427 | the delay is the schedule shifted by the seed modulo the jitter span, capped at 120 |
| `Backoff.SeedFormula` | src/push/worker.rs:420-423 | the seed in closed form, modulo 2^64 |
| `Deliveries.JoinDeliveries` | src/push/worker.rs:217-268 | the join loop counts successes and failures, which together are the deliveries tried, and collects exactly the gone endpoints |
| `Deliveries.CollectDeliveries` | src/push/worker.rs:217-342 | the branch taken is the verdict on the set of results |
| `QueueEffects.FailuresByKind` | src/push/worker.rs:352-384 | which errors mean gone, which terminal and which worth retrying |
| `Deliveries.CompletionOrderIrrelevant` | src/push/worker.rs:223-316 | verdict, counts and dead endpoints are the same for every order of completion |
| `Deliveries.DeleteDeadSubscriptions` | src/push/worker.rs:191-274 | the loops over subscriptions and dead endpoints delete what the remembered owner has stored under a dead endpoint |
| `Deliveries.DeletedWithDistinctEndpoints` | src/push/worker.rs:270-274 | with distinct endpoints, a stored subscription is deleted if and only if one with its user and endpoint, of whatever application, reported gone |
| `Deliveries.SharedEndpointSurvives` | src/push/worker.rs:191-194 | when two tried subscriptions share an endpoint and all report gone, one of them stays |
| `Deliveries.DoubleIsDeleted` | src/push/worker.rs:386-398 | a stored subscription that was not tried goes with a gone one of the same user and endpoint |
| `Deliveries.CrossAppDeleted` | src/push/worker.rs:386-398 | for instance the same topic stored for one user in two applications |
| `Deliveries.ExactDeletionCondition` | src/push/worker.rs:191-274 | of everything stored, exactly the gone subscriptions are deleted, for every report, if and only if no two tried subscriptions share an endpoint and none stored besides has the user and endpoint of a tried one |
| `Deliveries.UserTargetedDeletes` | src/push/worker.rs:162-274 | a message to one user deletes exactly what that user has, in any application, under an endpoint reported gone |
| `Deliveries.UserTargetedExactIff` | src/push/worker.rs:162-274 | so it deletes exactly the gone subscriptions, for every report, if and only if the user shares no endpoint of this application with another application |
| `Deliveries.BroadcastExactIff` | src/push/worker.rs:154-161 | in the worker's branch for broadcasts, deletion is exact for every report if and only if there is at most one target, without a double in another application |
| `PushQueue.PassOutcome` | src/push/worker.rs:283-342 | an item is sent if and only if a delivery succeeded; otherwise failed if and only if nothing is worth retrying or two retries are used; otherwise pending with one more count and a delay in its band; failures plus successes are the subscriptions tried |
| `PushQueue.StepKeepsInv` | src/push/worker.rs:111-504 | every statement, tick, client request and crash keeps the queue invariant |
| `PushQueue.RunKeepsInv` | src/push/worker.rs:111-504 | it holds in every state of every single-worker run with crashes |
| `PushQueue.ReachableItems` | src/push/worker.rs:14-15 | waiting and claimed items have 0 to 2 retries, failed ones exactly 3; a claim time is set exactly while processing; at most three passes complete |
| `PushQueue.NoBroadcastStored` | src/api/push/service.rs:119-151 | a broadcast is queued for the empty user id, which the foreign key refuses: in every run none can be enqueued and none is stored |
| `PushQueue.RetryWaits` | src/push/worker.rs:126-145 | no retry is claimed before its time, nor within 24 (first) or 48 (second) seconds of the last pass |
| `QueueEffects.ReclaimEffect` | src/push/worker.rs:400-411 | reclaiming sets exactly the items claimed 120 seconds ago or longer back to pending, without claim time, and leaves all others alone |
| `QueueEffects.StaleIsSelected` | src/push/worker.rs:124-130 | in every run, an item left in processing by a crash is a candidate of the next pass once its claim is stale and it is due, and is selected unless ten smaller ids are |
| `QueueEffects.CandidateIff` | src/push/worker.rs:126-130 | which items a selection considers |
| `QueueEffects.ClaimEffect` | src/push/worker.rs:135-145 | a claim marks the next item if it is still pending, with the time, and no other |
| `QueueEffects.TargetsOfUser` | src/push/worker.rs:162-170 | to which subscriptions a message goes |
| `QueueEffects.SettleFrame` | src/push/worker.rs:429-504 | settling changes the delivered item alone and keeps its addressee |
| `QueueEffects.CleanupEffect` | src/push/worker.rs:68-77 | clean-up removes exactly the sent and failed items of thirty days ago or longer |
| `QueueEffects.EnqueueEffect` | src/api/push/service.rs:135-151 | a message to an existing user is queued under the next id, pending and untried |
| `QueueEffects.SubscribeEffect` | src/api/sdk.rs:553-568 | a subscription replaces the one with its key and no other |
| `QueueEffects.DeleteUserEffect` | src/api/auth/admin_users.rs:257-266 | a deleted user's items and subscriptions go, and nothing else |
| `PushQueue.FinishedStep` | src/push/worker.rs:68-77 | one step leaves a sent or failed item as it is, or removes it by clean-up after thirty days or with its user |
| `PushQueue.FinishedForever` | src/push/worker.rs:429-504 | a sent or failed item never changes again in any continuation of any run |
| `PushQueue.RemovedForever` | src/push/worker.rs:68-77 | an item no longer stored never comes back in any continuation, nor does its id |
| `PushQueue.SettleOrderIrrelevant` | src/push/worker.rs:217-342 | the whole state after marking is the same for every order of completion |
| `PushQueue.DropOrderIrrelevant` | src/push/worker.rs:270-274 | and so is the state after the dead subscriptions are dropped |
| `PushQueue.DropDeadExact` | src/push/worker.rs:223-274 | in every run, a delivery to the unchanged subscriptions of a user who shares no endpoint across applications drops exactly the gone ones |
| `PushWorker.FirstIds` | src/push/worker.rs:126-130 | the selected items are the ten smallest eligible ids, in order |
| `PushWorker.PushWorker.EnqueuePush` | src/api/push/service.rs:119-151 | enqueueing is the step `Enqueue`, which fails unless the user it names exists |
| `PushWorker.PushWorker.SaveSubscription` | src/api/sdk.rs:536-571 | storing a subscription of an existing user is the step `Subscribe`: it replaces the one with the same key, and says whether there was none |
| `PushWorker.PushWorker.CleanupOldItems` | src/push/worker.rs:68-77 | clean-up is the step `Cleanup` |
| `PushWorker.PushWorker.ReclaimStaleProcessingItems` | src/push/worker.rs:400-411 | reclaiming is the step `Reclaim` |
| `PushWorker.PushWorker.ClaimItem` | src/push/worker.rs:135-170 | claiming and loading subscriptions is the step `Claim`, which skips items no longer pending |
| `PushWorker.PushWorker.DropDeadSubscriptions` | src/push/worker.rs:270-274 | the deletion loop is the step `DropDead` |
| `PushWorker.PushWorker.MarkItem` | src/push/worker.rs:276-342 | marking by the verdict is the step `Settle` |
| `PushWorker.PushWorker.FinishItem` | src/push/worker.rs:172-342 | joining the deliveries, dropping dead subscriptions and marking are the steps `DropDead` and `Settle`, in this order |
| `PushWorker.PushWorker.ProcessItem` | src/push/worker.rs:135-343 | one turn of the loop claims, waits, drops and settles, or only skips the item |
| `PushWorker.PushWorker.ProcessQueue` | src/push/worker.rs:111-346 | an undisturbed pass is a run of the queue model; every selected item is settled by the deliveries to its own subscriptions within the pass, and to the others nothing but reclaiming happens |
| `Invocations.HandleKeepsShape` | src/api/functions/invoke.rs:237-264 | invoking and retrying keep retry counts one above the parent's, within one function |
| `Invocations.RunShape` | src/api/functions/invocations.rs:190-204 | every history of invokes and retries has that shape |
| `Invocations.InvokeEffect` | src/api/functions/invoke.rs:237-264 | an invocation under a free id starts a tree of its own and changes nothing else |
| `Invocations.RetryEffect` | src/api/functions/invocations.rs:152-204 | a retry of a stored invocation joins its tree as a child with one more count; any other changes nothing |
| `Invocations.RootDistance` | src/api/functions/internal.rs:448-458 | the root lies exactly retry-count parents up |
| `Invocations.CommonAncestorCommonRoot` | src/api/functions/internal.rs:448-458 | invocations with a common ancestor have the same root |
| `Invocations.ClosedHoldsTree` | src/api/functions/invocations.rs:89-132 | a set with the root that is closed under retries holds the whole tree |
| `Invocations.FindRootInvocationId` | src/api/functions/internal.rs:432-458 | the loop ends at the root after exactly retry-count hops, and finds nothing only for an unknown invocation |
| `Invocations.ListAttempts` | src/api/functions/invocations.rs:89-132 | the recursive query returns every invocation of the tree exactly once and nothing else, from any member |
| `Invocations.InvocationStore.InvokeFunction` | src/api/functions/invoke.rs:237-264 | an invocation is stored as a root |
| `Invocations.InvocationStore.RetryFunctionInvocation` | src/api/functions/invocations.rs:152-204 | a retry is stored under its target with one more count |
| `Redaction.ReplaceRemoves` | src/api/functions/internal.rs:348-356 | replacing a secret that cannot grow together with the mask removes it completely |
| `Redaction.ReplaceCreatesNothing` | src/api/functions/internal.rs:348-356 | and never creates another such secret |
| `Redaction.MaskableSecretRemoved` | src/api/functions/internal.rs:348-356 | on any list, a secret that cannot grow together with the mask is gone in the end, whatever the other secrets are |
| `Redaction.RedactOneMore` | src/api/functions/internal.rs:348-356 | each secret in turn masks what separates the pieces of the text and keeps the pieces |
| `Redaction.PiecesKept` | src/api/functions/internal.rs:348-356 | text around any number of occurrences of a secret comes through untouched |
| `Redaction.RedactedTextIsClean` | src/api/functions/internal.rs:348-356 | text redacted with a list contains none of its secrets if each is such a secret or has one of the list inside it |
| `Redaction.MaskableIsCovered` | src/api/functions/internal.rs:348-356 | lists of such secrets only satisfy this condition |
| `Redaction.CoveredNotMaskable` | src/api/functions/internal.rs:348-356 | so does a list with a secret that would leak alone |
| `Redaction.CleanNotCovered` | src/api/functions/internal.rs:348-356 | the condition is not necessary: a list that does not meet it and from which no text leaks |
| `Redaction.StarFreeIsMaskable` | src/api/functions/internal.rs:348-356 | secrets without a star satisfy the condition |
| `Redaction.MeetingMaskLeaks` | src/api/functions/internal.rs:348-356 | every secret that begins or ends with a star or contains the mask leaks from the given text, even alone |
| `Redaction.StarInSecretCanLeak` | src/api/functions/internal.rs:348-356 | a concrete leak |
| `Redaction.CompleteIffMaskable` | src/api/functions/internal.rs:348-356 | redaction is complete for all texts and all selections of the secrets if and only if no secret begins or ends with a star or contains the mask |
| `Redaction.RedactTextIdempotent` | src/api/functions/internal.rs:348-356 | redacting text again changes nothing |
| `Redaction.RedactedJsonIsClean` | src/api/functions/internal.rs:358-374 | every string value at any depth is clean; keys, lengths and other leaves are kept |
| `Redaction.RedactedAt` | src/api/functions/internal.rs:358-374 | at every path the redacted value has the redaction of the string that was there, or the same other leaf, and nothing where nothing was |
| `Redaction.CleanJsonUnchanged` | src/api/functions/internal.rs:358-374 | values without secrets pass unchanged |
| `Redaction.RedactJsonIdempotent` | src/api/functions/internal.rs:358-374 | redacting a value again changes nothing |
| `Redaction.RedactSecretText` | src/api/functions/internal.rs:348-356 | the loop over the secrets computes the redaction, which is clean for covered lists and leaves clean text alone |
| `RateLimit.SpacedBoundsWindows` | src/middleware/rate_limit.rs:80-100 | if any n + 1 consecutive instants span more than the window, every closed window holds at most n |
| `RateLimit.RecentIsCount` | src/middleware/rate_limit.rs:86-94 | the attempts not older than the window are as many as the history has in the closed window that ends now |
| `RateLimit.RefusedIffFull` | src/middleware/rate_limit.rs:94-96 | an attempt is refused if and only if as many as the maximum were accepted in the closed window that ends with it |
| `RateLimit.SimpleRuleKeepsSpacing` | src/middleware/rate_limit.rs:80-100 | accepting only while fewer than the maximum lie in the last window keeps that spacing |
| `RateLimit.AttemptLog.DropStale` | src/middleware/rate_limit.rs:86-92 | popping from the front leaves exactly the attempts not older than the window |
| `RateLimit.AttemptLog.RecordAuthAttempt` | src/middleware/rate_limit.rs:80-100 | the deque refines the simple rule over the full history; it is sorted, holds exactly the recent attempts and never exceeds the maximum |
| `RateLimit.AuthWindowBound` | src/middleware/rate_limit.rs:80-100 | every closed window of every history holds at most the maximum of accepted attempts |
| `RateLimit.TenPerMinute` | src/middleware/rate_limit.rs:14-15 | at most ten authentication attempts of a client are accepted in any sixty seconds |
| `RateLimit.FixedStepExplained` | src/middleware/rate_limit.rs:25-45 | what the counter knows about the accepted requests of this window and the one before is kept by every request |
| `RateLimit.FixedWindowBound` | src/middleware/rate_limit.rs:25-45 | every closed window of every history holds at most 2L - 1 accepted requests, for the largest limit L in force |
| `RateLimit.FixedWindowBoundIsTight` | src/middleware/rate_limit.rs:25-45 | some history reaches 2L - 1 |
| `RateLimit.FixedRefusedOnlyIfFull` | src/middleware/rate_limit.rs:33-44 | a request is refused only when as many as its limit were accepted in the closed window that ends with it |
| `RateLimit.FixedAcceptsFresh` | src/middleware/rate_limit.rs:26-35 | a first request, and one after the window, is always accepted |
| `RateLimit.GlobalBound` | src/middleware/rate_limit.rs:25-45 | at most 199 requests of a client are accepted in any sixty seconds |
| `RateLimit.KeysAreIndependent` | src/middleware/sdk_auth.rs:219-246 | however the requests of many keys interleave, each key gets what it would get alone |
| `RateLimit.EveryKeyBounded` | src/middleware/sdk_auth.rs:205-246 | in every history of all keys together, with limits that may change between requests, no key exceeds 2L - 1 in any closed window, for the largest limit L it had |
| `RateLimit.FixedWindowCounters.GlobalRequest` | src/middleware/rate_limit.rs:25-45 | the middleware's counter update is the counter step with limit 100 and leaves other clients alone |
| `RateLimit.FixedWindowCounters.AppKeyRequest` | src/middleware/sdk_auth.rs:205-246 | the application key's counter update is the counter step with the limit read for this request, which is at least 1 |
| `Restore.ApplyPreservesFirst` | src/db.rs:92-142 | one start, crashed anywhere, leaves the database or a complete preserved copy of it |
| `Restore.OriginalNeverLost` | src/db.rs:92-142 | after any number of starts, each crashed anywhere with torn copies, the original is in place or in full in a preserved copy |
| `Restore.CrashesKeepPending` | src/db.rs:92-142 | crashed starts, at distinct or equal times, keep the marker and the backup |
| `Restore.CompleteStartRestores` | src/db.rs:92-142 | the first complete start leaves the named backup in the database file |
| `Restore.LaterStartsChangeNothing` | src/db.rs:92-142 | without the marker, starts change nothing |
| `Restore.UnsafeNamesIgnored` | src/db.rs:92-142 | a marker that names anything but a plain `.backup` file is ignored and nothing is touched |
| `Restore.PlainNames` | src/db.rs:92-142 | a plain name is accepted if the file exists, and otherwise nothing is touched |
| `Restore.RepeatedStampLoses` | src/db.rs:92-142 | if two starts share a time stamp, some crashes lose the original |
| `Restore.DistinctStampsCondition` | src/db.rs:92-142 | the original survives every pattern of crashes if and only if no two starts share a time stamp |
| `Restore.Directory.ApplyPendingRestore` | src/db.rs:92-142 | the start-up code, file operation by file operation, is one step of the crash model |
| `Text.SplitJoin` | sdks/js/src/index.ts:391-391 | splitting loses nothing: the pieces joined by the separator are the text |
| `Text.SplitPiecesAreFree` | sdks/js/src/index.ts:391-391 | and no piece still holds the separator, so the frames below are those between separators |
| `Text.SplitOfJoin` | sdks/js/src/index.ts:391-391 | joined pieces come apart again |
| `Text.ReplaceIsSplitJoin` | src/api/functions/internal.rs:352-352 | replacing puts the mask between the pieces and keeps the pieces |
| `Text.TrimExact` | src/api/data/internal.rs:16-20 | trimming removes the white space at both ends, all of it and nothing else |
| `Framing.PayloadOfFrame` | sdks/js/src/index.ts:394-402 | the payload of a frame is the text behind `data:` in its first such line, without the white space around it |
| `Framing.NoPayload` | sdks/js/src/index.ts:394-397 | a frame without such a line has no payload |
| `Framing.BlankPayload` | sdks/js/src/index.ts:398-401 | nor has one with nothing but white space behind `data:` |
| `Framing.StreamRoundTrip` | sdks/js/src/index.ts:383-404 | what a server writes, one frame for each payload, is what a subscription delivers |
| `Framing.NonBlankOne` | src/functions/runtime.rs:71-72 | the runner skips blank lines and no others |
| `Framing.CutAppend` | sdks/js/src/index.ts:390-392 | more text only cuts the open rest further; closed frames are final |
| `Framing.FramesAreFinal` | sdks/js/src/index.ts:386-404 | frames closed in a prefix of the stream are the first frames of the stream |
| `Framing.DeliverParts` | sdks/js/src/index.ts:393-403 | the inner loop delivers exactly the payloads before the first that does not parse |
| `Framing.SubscribeTable` | sdks/js/src/index.ts:383-404 | for every way of cutting the stream, the subscription delivers the payloads of the closed frames of the whole text, up to the first that does not parse |
| `Framing.DrainLines` | src/functions/runtime.rs:58-64 | the inner loop hands over exactly the complete lines that are not blank and keeps the rest |
| `Framing.ReadProtocolLoop` | src/functions/runtime.rs:51-69 | for every way of cutting the input, the runner handles the non-blank lines of the whole text, the last one even without a newline |
| `AuditLog.CursorRoundTrip` | src/api/audit.rs:150-158 | the cursor text comes back as it was written if and only if the time has no separator in it |
| `AuditLog.MalformedCursorIgnored` | src/api/audit.rs:150-158 | a cursor without a separator is ignored |
| `AuditLog.CandidateIff` | src/api/audit.rs:60-71 | which entries a request may return: those of its application that pass every given filter and sort below the cursor |
| `AuditLog.LimitBounds` | src/api/audit.rs:54-54 | page sizes run from 1 to 100, with 50 as the default |
| `AuditLog.PageIsTop` | src/api/audit.rs:54-103 | a page is descending, and what it leaves out sorts below everything on it; it is empty only if nothing is left |
| `AuditLog.PageNewestFirst` | src/api/audit.rs:72-73 | a page has as many entries as asked for or as there are, newest first with ties by id downwards |
| `Ordering.LessMeans` | src/api/audit.rs:67-71 | texts are compared where they first differ, a beginning before what it begins |
| `AuditLog.PagesDescend` | src/api/audit.rs:54-103 | pages from a cursor on descend strictly, also while entries are added |
| `AuditLog.PagesComplete` | src/api/audit.rs:54-103 | once the empty page is reached, nothing present at the first request was missed |
| `AuditLog.PagingIsExact` | src/api/audit.rs:54-103 | paging with any page sizes shows each entry present at the first request exactly once, in descending order, and reaches an empty page |
| `AuditLog.AuditStore.RecordAuditLog` | src/api/audit.rs:105-137 | recording adds one entry and changes none |

## Left out

- HTTP routing, extractors, CORS, response bodies, message texts, log output and the console: no property beyond one branch.
- SQLite itself, transactions, migrations and write-ahead-log side files: tables are maps, `CURRENT_TIMESTAMP` is a parameter, and database failures are not modelled.
- Password hashing, token hashing, token generation, SHA-256, JWT and mail: parameters. Chains need no injectivity of the hash, because inserting a taken hash fails.
- RFC 3339 syntax, number parsing and formatting, rounding of large integers and the text of nested JSON: parameters of the environments.
- Case folding of table names covers ASCII letters only, and `LIKE` folds case as SQLite does without extensions.
- `normalize_row_data` with `allow_partial` set: no caller sets it.
- What makes the database refuse to delete a user apart from audit entries of the data layer (functions, keys and other entries that refer to the user): one boolean given to the step.
- Workspace quota: one boolean given to row creation.
- Row events, realtime broadcasting, triggers, the contents of audit entries, query presets, `expand` and the schema diff preview: reporting beside the state modelled here.
- Time stamps of imported rows: an import ignores the exported `created_at` and `updated_at` and stores the time of the import, so the round trip speaks of ids, owners and data.
- ListRows.ExecuteListRows: rows that tie in the requested order may come either way, as the query has no tie-breaker; so `PagesShowListing` assumes that they keep their order between requests. Sums that overflow wrap around, as in a release build.
- Redaction.CompleteIffMaskable: the equivalence is about all selections of the secrets. For one given list, `RedactedTextIsClean` gives a sufficient condition; it is not necessary (`CleanNotCovered`), because an earlier replacement can also make a leaking text unreachable.
- The e-mail syntax check and the lookup by e-mail: the user found is a parameter. Register is the step that sets a user. The console's own login works on the same tokens and is not repeated.
- PushQueue.RetryWaits: speaks of `next_retry_at` only; `scheduled_at` is free text of the caller and enters as the set of items it lets go.
- Deliveries.BroadcastExactIff: is about the worker alone, like `SharedEndpointSurvives`; `NoBroadcastStored` shows that no broadcast reaches the worker while foreign keys are enforced.
- Several push workers at once: the program starts one, and marking does not recheck the claim.
- Webhook calls, `last_error` and the list of failed destinations: text that depends on completion order.
- Backoff.RetryBackoffSeconds: needs an attempt of at least 1, which the worker always passes.
- RateLimit.FixedWindowBound: needs limits of at least 1, which the program ensures for keys (`KeyLimit`) and has for clients.
- Restore: the database file is not named like the marker or a backup, and time stamps end in a digit.
- Decoding of bytes to characters across chunks, done by `TextDecoder`; `JSON.parse` is a predicate on payloads.
- The order in which attempts of a retry tree are listed; the status updates and the execution of invocations.
- Function version numbering, object storage, templates and backups themselves.
