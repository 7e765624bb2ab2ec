# A verified model of the Bytebase control plane

Dafny 4.11 models of the algorithms, store protocols and client protocols of the repository, with
proofs of what they guarantee. `dafny verify dfyconfig.toml` checks all of it.

| file | what it models |
|---|---|
| `Wrappers.dfy` | optional values, results, walks over sets |
| `EditDistance.dfy` | the suggestion of field names: an in-place edit-distance table, and the choice of the closest names |
| `Migrator.dfy`, `AuditLog.dfy` | the schema migrator and its advisory lock, as steps of crashing replicas and as one run; the batched audit-log rewrite |
| `ProjectIds.dfy` | per-project id allocation by interleaved transactions, and task creation on top of it |
| `PlanCheckRuns.dfy` | the plan-check-run table and its claiming schedulers |
| `RolloutDriver.dfy` | the rollout driver that polls a changing server, its cancellation, and the stage status of the summary |
| `SqlText.dfy`, `QueryBuilder.dfy`, `FilterCompiler.dfy` | SQL text and how it is read, the query builder, and the two CEL filter compilers |
| `FilterRows.dfy`, `PlanFilterRows.dfy`, `Like.dfy` | what each condition of the filters says of a database or a plan, and SQL's LIKE |
| `TableNames.dfy`, `FilterScope.dfy`, `DatabaseListing.dfy` | the tables that SQL fragments and database filters name, and the database list: its FROM, its conditions and its cursor |
| `Utf8.dfy`, `Obfuscation.dfy`, `Positions.dfy` | UTF-8 sanitising and truncation, obfuscation, ANTLR positions |
| `ResourceNames.dfy`, `Strings.dfy` | printers and parsers of resource names, over Go's string functions |
| `PolicyCache.dfy`, `IamPatch.dfy` | policies behind their cache, and the rewrite of IAM bindings |
| `Components.dfy` | concurrent start-up, the component registry and the health status |

Where the source mutates, the model does: arrays and their swap in the edit distance, classes for
tables, builders, caches, bindings and registries, loops as loops. Each such method is proved
against a specification, and the properties are then proved of that. Protocols are state machines:
`Next` is one step of one participant, `Exec` any sequence of steps, and the results speak of all of
them. Clocks, sort order among equals, map order, evictions, crashes and what a poll returns are
arbitrary.

Five places where the code and what is said of it part ways are theorems here: ids that are
documented as globally unique in `backend/migrator/migration/3.18/0003##add_unique_id_constraints.sql`
are not (`ProjectIds.InsertFailsIff`, `ProjectIds.FirstRowsCollide`); the position converter does
not return the end of the text for a line past it (`Positions.PastTheEnd`);
the policy upsert names a conflict target that the table's primary key is stricter than
(`PolicyCache.CreateThenGet`); listing the tasks there are, which `backend/store/task.go:510`
does to avoid duplicates, avoids them only under the condition of `ProjectIds.NoRepeatIff`, and across
calls as `ProjectIds.CarefulRunsNeverRepeat` says (`ProjectIds.SameTaskTwice` and
`ProjectIds.ConcurrentCreatesDuplicate` show it fail); and database filters that compare an
environment or an engine compile to columns of a table that the listing does not select from, so that
exactly these listings fail (`DatabaseListing.AcceptedIff`). The model follows the code.

## Model

| member | source | states |
|---|---|---|
| EditDistance.Levenshtein | backend/server/marshaler.go:103-128 | the two-row, buffer-swapping loop returns the edit distance: a script of that many insertions, deletions and substitutions turns one string into the other and no script is shorter |
| EditDistance.FillRow | backend/server/marshaler.go:116-124 | one row of the table is computed from the row before it, whatever the buffer held |
| EditDistance.ScriptOfLengthDist | backend/server/marshaler.go:103-128 | a script of the computed length exists |
| EditDistance.NoShorterScript | backend/server/marshaler.go:103-128 | no script is shorter than the computed length |
| EditDistance.EditDistanceSymmetric | backend/server/marshaler.go:102-128 | the distance from a to b is that from b to a |
| EditDistance.EditDistanceZero | backend/server/marshaler.go:102-128 | the distance is zero exactly for equal strings |
| EditDistance.EditDistanceTriangle | backend/server/marshaler.go:102-128 | the triangle inequality |
| EditDistance.EditDistanceBounds | backend/server/marshaler.go:102-128 | the distance lies between the difference of the lengths and the longer length |
| EditDistance.EligibleIff | backend/server/marshaler.go:79-91 | a field is eligible exactly when its distance to the lowered input is within half the longer length plus one |
| EditDistance.FindSimilar | backend/server/marshaler.go:74-100 | the suggestions are a choice of the closest eligible fields, as many as asked for or all, closest first, each quoted, for any order the sort may give equal ones |
| EditDistance.Score | backend/server/marshaler.go:79-91 | the loop collects exactly the eligible fields with their distances, in the order given |
| EditDistance.ExactMatchComesFirst | backend/server/marshaler.go:72-100 | a field equal to the input up to case is suggested ahead of every other spelling |
| Migrator.MigrationsAreSafe | backend/migrator/migrator.go:44-127 | for every interleaving of replicas, shipping different numbers of files, with any user map, crashing anywhere and even losing the lock session: recorded versions strictly increase, exactly the files above the starting version are applied, in order and once each, and a run that returned without error left at least its latest version |
| Migrator.AuditIsRewritten | backend/migrator/migrator.go:108-125 | over the same runs, when converting twice is converting once: the audit log is rewritten, each row once, as soon as the version with the Go migration is recorded |
| Migrator.AlwaysRewrittenIff | backend/migrator/migrator.go:256-364 | every run of every configuration leaves it so exactly when no email is, as text, the id of a user with another email |
| Migrator.StepKeeps | backend/migrator/migrator.go:44-127 | each step of each replica keeps the invariant behind it |
| Migrator.CommitIsNext | backend/migrator/migrator.go:97-125 | a run at a file above the version it read commits it exactly when it is the next file the database lacks |
| Migrator.MigrationsExclude | backend/store/advisory_lock.go:71-96 | while no lock session is lost, at most one replica is past the acquisition, and no commit it comes to is refused as already recorded |
| Migrator.HistoryIncreases | backend/migrator/migrator.go:226-233 | the recorded versions of any state the invariant allows strictly increase |
| Migrator.UpToIs | backend/migrator/migrator.go:97-100 | the files skipped are exactly those not above the database's version |
| Migrator.LessIsLexicographic | backend/migrator/migrator.go:97-100 | versions compare at the first of major, minor and patch in which they differ |
| Migrator.Database.ExecuteMigration | backend/migrator/migrator.go:194-234 | statement and record commit together or not at all; a recorded version makes the commit fail |
| Migrator.Database.RunGoMigration | backend/migrator/migrator.go:256-290 | a Go migration leaves the whole rewrite, or, when the connection breaks before it has found no rows left, the batches committed until then |
| Migrator.Database.MigrateSchema | backend/migrator/migrator.go:44-127 | one run initialises an empty database with the latest version, refuses one without a recorded version, and otherwise applies all files above the recorded version or all up to the first that fails, with the Go migration before its file's statement; when it succeeds it has applied exactly the files with a larger major, or the same major and a larger minor, or the same major and minor and a larger patch |
| AuditLog.AuditTable.MigrateAuditLogBatch | backend/migrator/migrator.go:293-364 | one batch rewrites the first rows that match after the last id, at most the batch size of them, and returns the last id of these |
| AuditLog.AuditTable.Migrate | backend/migrator/migrator.go:256-290 | for any batch size of at least one the loop ends with every row of positive id mapped once by the conversion and every other row as it was |
| AuditLog.AuditTable.MigrateUntil | backend/migrator/migrator.go:256-290 | broken off after a number of batches the loop has finished exactly if one of them found no row left, and else leaves what these batches do |
| AuditLog.QuerySelectsAllChanges | backend/migrator/migrator.go:301-309 | the rows that the query leaves out are rows the conversion would not change |
| AuditLog.MatchesIsLike | backend/migrator/migrator.go:301-309 | the query selects the references that are like `users/%` and not like `users/%@%` |
| AuditLog.ConvertIs | backend/migrator/migrator.go:387-408 | a reference by a known id becomes one by the email; an unknown id, another form or one with an `@` stays |
| AuditLog.BatchAdvances | backend/migrator/migrator.go:293-364 | a batch extends the rewritten prefix of the table, or finds that it was all of it |
| AuditLog.IdempotentIff | backend/migrator/migrator.go:387-408 | converting twice changes nothing more exactly when no email is, as text, the id of a user with another email |
| AuditLog.RerunSafeIff | backend/migrator/migrator.go:256-290 | stopping after any number of committed batches and rerunning from the start gives the table of one run, on every table, exactly under that condition |
| AuditLog.SharedBatch | backend/migrator/migrator.go:293-364 | a batch on a table that other writers are rewriting too keeps every row either old or rewritten, and rewritten up to its last id |
| ProjectIds.NextIdIsLeastFree | backend/store/id.go:20-44 | the allocated id is the least one from 101 on above every id of the project |
| ProjectIds.IdsIncrease | backend/store/id.go:17-44 | in every interleaving of transactions and deletions the ids of a project in a table are strictly increasing in commit order |
| ProjectIds.NewIdsFromMin | backend/store/id.go:11-44 | in every such interleaving each row is an old one or has an id of at least 101 |
| ProjectIds.IdsContiguous | backend/store/id.go:17-44 | when nothing is deleted, any run appends to a project's ids the next one, the one after it, and so on without a gap |
| ProjectIds.IdsFromIdle | backend/store/id.go:11-44 | from a moment with no open transaction on, over every run: a project's ids in a table never repeat and new ones are at least 101, and without deletions they continue without a gap |
| ProjectIds.StepKeeps | backend/store/id.go:20-44 | each step keeps: a transaction past the lock holds the project row, and what it read is above every committed id of the project |
| ProjectIds.CommitAddsCount | backend/store/task.go:159-196 | a commit of n rows gives them n consecutive ids from the one read |
| ProjectIds.InsertFailsIff | backend/migrator/migration/LATEST.sql:258-277 | on an existing project an insert fails exactly when a row of another project has one of its ids: ids are allocated per project but unique per table |
| ProjectIds.InsertWaitsIff | backend/migrator/migration/LATEST.sql:258-277 | an insert waits exactly while another open transaction has inserted one of its ids in the table and no committed row has one |
| ProjectIds.CommitIff | backend/store/task.go:159-196 | a transaction commits only once its rows are inserted, or if it has none |
| ProjectIds.FirstRowsCollide | backend/store/plan.go:67-113 | two projects that each create their first row: the second insert fails |
| ProjectIds.Store.CreateTasks | backend/store/task.go:502-571 | the call inserts, in order and with consecutive ids, exactly the tasks for which the plan has none with the same instance, the same sheet and the same database, an absent one counting as an empty one; after it every task asked for is in the plan; it fails, changing nothing, on an absent project or a taken id |
| ProjectIds.MissingByFields | backend/store/task.go:509-555 | field by field, which of the tasks asked for a call inserts |
| ProjectIds.ExistingKeys | backend/store/task.go:511-534 | the loop collects exactly the keys of the plan's tasks, an absent database counting as an empty one |
| ProjectIds.MissingIs | backend/store/task.go:536-555 | a requested task is inserted exactly when the plan has none with its key |
| ProjectIds.RepeatInsertsNothing | backend/store/task.go:502-571 | a call lists, commits some time later and others go on for any while: as long as no row is deleted, repeating it with the same tasks inserts nothing |
| ProjectIds.NoRepeatIff | backend/store/task.go:509-555 | after a call the plan has no two tasks with one key exactly when it had none before and the tasks it was missing have distinct keys |
| ProjectIds.CarefulRunsNeverRepeat | backend/store/task.go:509-571 | in every run where tasks are inserted by such calls only, with distinct keys, and only while no other task transaction of the project is open, no plan ever has two tasks with one key |
| ProjectIds.SameTaskTwice | backend/store/task.go:536-555 | one task given twice in a call is inserted twice |
| ProjectIds.ConcurrentCreatesDuplicate | backend/store/task.go:502-517 | two calls that both list the tasks before either takes the project's lock insert the same task twice |
| PlanCheckRuns.ClaimsAreSeparated | backend/store/plan_check_run.go:188-300 | in every interleaving of create, claim, update, cancel and timeout: between two claims of a run it was created anew, before its first claim it was created, and there is at most one row per project and plan |
| PlanCheckRuns.StepKeeps | backend/store/plan_check_run.go:57-300 | each statement keeps the invariant: an available row was created since its last claim, locked rows are available, ids and plans are unique |
| PlanCheckRuns.ClaimIsItsSteps | backend/store/plan_check_run.go:263-300 | locking every available row that others have not, then committing, is the one UPDATE with SKIP LOCKED: it makes exactly these rows running and hands out their ids in table order |
| PlanCheckRuns.HandedOutIff | backend/store/plan_check_run.go:188-300 | from when a run is available, over any steps of the others that neither create it anew nor hand it out: the next claim that finds its row unlocked hands it out exactly when none of them updated or canceled it |
| PlanCheckRuns.LateResultEndsEpisode | backend/store/plan_check_run.go:188-209 | in particular an available episode may go to nobody: an update of the same run ends it, as updates do not look at the status |
| PlanCheckRuns.Table.CreatePlanCheckRun | backend/store/plan_check_run.go:57-90 | the call is a step of the state machine and keeps its invariant; it fails, changing nothing, exactly when the plan has no row and the id is taken; else the plan has one available row with the result, under its old id if it had one, and rows of other plans are as they were |
| PlanCheckRuns.Table.ClaimAvailablePlanCheckRuns | backend/store/plan_check_run.go:263-300 | the call is a run of lock steps and a commit, keeps the invariant, and returns the ids of the available rows not locked, in table order |
| PlanCheckRuns.Table.UpdatePlanCheckRun | backend/store/plan_check_run.go:188-209 | at most one row changes, to the status and result, whatever its status was; with a final status the call is a step of the state machine and keeps its invariant |
| PlanCheckRuns.Table.BatchCancelPlanCheckRuns | backend/store/plan_check_run.go:211-226 | afterwards the project has no run among the ids that is not canceled, a row that changed has one of the ids and changed in its status only; the call is a step of the state machine and keeps its invariant |
| PlanCheckRuns.Table.FailStalePlanCheckRuns | backend/store/plan_check_run.go:238-259 | the number returned is that of the rows that differ, each of these was running and has failed, and none of the stale runs is left running; the call is a step of the state machine and keeps its invariant |
| RolloutDriver.WaitForRollout | action/command/rollout.go:147-271 | the driver's outcome, its requests and the polls at which it saw stages complete are those of the step-by-step specification, for every sequence of polls; when the context is cancelled by the time it returns, and only then, the active task runs it can list are asked to be canceled, however it ended |
| RolloutDriver.RequestIff | action/command/rollout.go:194-266 | by the polls alone: a request is made at a poll exactly when the driver gets to the stage there, and it has tasks not started and none failed or canceled; it names exactly these tasks |
| RolloutDriver.CompletedIff | action/command/rollout.go:247-254 | and a stage is seen complete exactly when the driver gets to it and all its tasks are done or skipped |
| RolloutDriver.EndIs | action/command/rollout.go:194-270 | the run ends at the first poll that gives no reason to go on, with the outcome shown there: a failed task, else a canceled one, the target done, a request refused, an unreadable rollout, a missing stage, or a cancelled context |
| RolloutDriver.RunEnds | action/command/rollout.go:194-270 | every run ends at some stage and poll of that kind, or polls on |
| RolloutDriver.NothingToDrive | action/command/rollout.go:147-192 | there is something to drive exactly when a target is given, the rollout can be read and has a stage of the target; else nothing is asked for |
| RolloutDriver.NotStartedNamesAre | action/command/rollout.go:211-238 | the names asked for are those of all tasks not started, in order |
| RolloutDriver.CancelledStops | action/command/rollout.go:194-199 | once a poll sees the context cancelled the driver has returned, and every request and completed stage was at an earlier poll |
| RolloutDriver.EachCancelledOnce | action/command/rollout.go:278-297 | each active run is then named by exactly one request to cancel, of the parent its name is cut to |
| RolloutDriver.RunStages | action/command/rollout.go:194-270 | so are those of its nested loops over stages and polls |
| RolloutDriver.CheckTasks | action/command/rollout.go:211-238 | the scan finds whether all tasks are done or skipped, whether one failed or was canceled, and the names of those not started, in order |
| RolloutDriver.DriveCalls | action/command/rollout.go:240-266 | each request names exactly the tasks of one stage seen not started in that same poll, made after every earlier stage was seen complete |
| RolloutDriver.DriveCompletes | action/command/rollout.go:247-254 | stages are seen complete one after the other, and the target only as the last one |
| RolloutDriver.RunsInOrder | action/command/rollout.go:194-270 | with a stable stage list and done and skipped tasks staying so: a request is made only while every earlier stage is complete, and never past the first target stage |
| RolloutDriver.SuccessMeansComplete | action/command/rollout.go:147-271 | then, for a rollout that has the target, a return without error means that every stage up to the first target stage is complete at one poll |
| RolloutDriver.StableNeverOutOfBounds | action/command/rollout.go:206-208 | with a stable stage list the index error never happens |
| RolloutDriver.GroupByStage | action/command/rollout.go:278-284 | the map has exactly the parents with a pending or running task run, each with its own, in order |
| RolloutDriver.ActiveOfIff | action/command/rollout.go:279-284 | the names asked of a parent are those of its pending and running task runs and no others |
| RolloutDriver.CancelRollout | action/command/rollout.go:273-297 | each stage with such runs is asked once to cancel exactly these, in any order and whatever failed before, and every failure is collected |
| RolloutDriver.StageOfIff | action/command/rollout.go:281-288 | the parent that a task run's name is cut down to is its own stage exactly when neither the project nor the stage has an id starting with `tasks` |
| RolloutDriver.GetAggregatedStageStatus | action/github/summary.go:79-143 | a stage shows done or skipped exactly when it has tasks and all are done or skipped; failed, canceled, running and not started in that order of precedence |
| SqlText.WellGroupedReadsAsMeant | backend/store/database.go:628-711 | text that leaves nothing to a precedence that reads it otherwise, read back with NOT over AND over OR and its placeholders bound in order, has the intended three-valued meaning |
| SqlText.BareOrUnderAndIsMisread | backend/store/database.go:628-651 | the parentheses around OR are needed: without them a condition reads differently |
| SqlText.ConnectivesRank | backend/store/database.go:628-651 | with false below unknown below true, AND takes the lower, OR the higher, and NOT turns the order around |
| QueryBuilder.Query.Join | backend/common/qb/qb.go:31-41 | a part is appended, with the separator unless it is the first |
| QueryBuilder.JoinedIs | backend/common/qb/qb.go:31-94 | joining adds the separator, unless it is the first part, then the text, and the values at the end |
| QueryBuilder.NumberLayout | backend/common/qb/qb.go:156-199 | the n-th placeholder of the finished text is $n |
| QueryBuilder.NumberHolesAt | backend/common/qb/qb.go:156-199 | for any text: the n-th placeholder becomes $n and nothing else changes |
| QueryBuilder.ToSQLIff | backend/common/qb/qb.go:44-199 | a text with values becomes SQL exactly when it has one placeholder for each value |
| QueryBuilder.RenderedSqlMeans | backend/common/qb/qb.go:156-199 | a builder that renders a safely grouped condition yields SQL with that condition's meaning and its arguments in order |
| QueryBuilder.SpliceOne | backend/common/qb/qb.go:44-94 | a nested query's text and arguments replace its placeholder |
| FilterCompiler.GetVariableAndValueFromExpr | backend/store/filter.go:9-37 | the scan returns the last variable named and the last value given, a list keeping its literals |
| FilterCompiler.LastNameIs | backend/store/filter.go:12-23 | the variable is that of the last operand that names one, so operand order does not matter when one does |
| FilterCompiler.LastValueIs | backend/store/filter.go:24-35 | and the value is that of the last operand that gives one |
| FilterCompiler.GetFilter | backend/store/database.go:628-704 | the recursion with its builder succeeds, errs or panics and builds exactly as the compiler function, for both dialects |
| FilterCompiler.JoinOperands | backend/store/database.go:634-651 | the loop joins the compiled operands with the connective, or stops at the first that errs or panics |
| FilterCompiler.CompileIsFaithful | backend/store/database.go:628-704 | every accepted expression compiles to a safely grouped condition with the meaning of the CEL tree, arguments in leaf order |
| FilterCompiler.FilterMeansWhatCelMeans | backend/store/database.go:566-711 | the finished SQL of every accepted filter, re-read with SQL's precedence, has on every row the three-valued meaning of the CEL tree over its leaves, and its arguments are those of the leaves, left to right |
| FilterCompiler.CelConnectives | backend/store/database.go:628-697 | the operators `_||_`, `_&&_` and `!_` mean OR, AND and NOT of their operands |
| FilterCompiler.Unsupported | backend/store/database.go:628-704 | any other function, anything that is no call, and a negation of other than one operand is an error, for either dialect |
| FilterCompiler.LeafRenders | backend/store/plan.go:306-410 | a leaf, the two-condition AND without parentheses and the parenthesised OR included, keeps its own meaning |
| FilterRows.EqualityMeans | backend/store/database.go:566-601 | in a query that selects from `db`, an accepted comparison of project, instance, environment, engine or name names only tables of the query exactly when it compares neither environment nor engine, or the query selects from `instance` too; and then it holds of a row exactly when the row's own resource name or value is the one compared with; an empty environment means none, and a row without one is unknown |
| FilterRows.ExcludeUnassignedMeans | backend/store/database.go:602-606 | `exclude_unassigned` true keeps the databases outside the two default projects, any other value keeps all |
| FilterRows.EqualityAccepted | backend/store/database.go:566-601 | which comparisons of these five are taken, which are errors and which panic |
| FilterRows.TableMeans | backend/store/database.go:607-615 | `table ==` holds exactly of a database with a table of that name |
| FilterRows.NameContainsMeans | backend/store/database.go:655-670 | `name.contains` holds exactly when the lower-cased name is like the lower-cased text between percent signs; that is, for a text without wildcards, when it holds the text |
| FilterRows.TableContainsMeans | backend/store/database.go:671-676 | `table.contains` holds exactly when some table's name is like, or holds, the lower-cased text in that way |
| Like.SubstringIff | backend/store/database.go:663-676 | the pattern between percent signs asks for a substring, of every column value, exactly when the text has no `%`, `_` or backslash |
| FilterRows.LabelMeans | backend/store/database.go:522-526 | `labels.k ==` holds exactly of a database whose label has the value; without the label it is unknown |
| FilterRows.LabelInMeans | backend/store/database.go:527-534 | `labels.k in` holds exactly when the label's value is in the list; an empty list is an error |
| FilterRows.EngineInMeans | backend/store/database.go:540-564 | `engine in` is taken for known engines only, is in scope only where `instance` is selected from, and holds there exactly when the engine is in the list |
| PlanFilterRows.CreatorMeans | backend/store/plan.go:312-317 | `creator ==`, with or without `users/`, holds exactly of plans by that email; an empty one is an error |
| PlanFilterRows.HasRolloutMeans | backend/store/plan.go:318-326 | `has_rollout` true asks for a stored `true`, false for none or a stored `false` |
| PlanFilterRows.HasIssueMeans | backend/store/plan.go:327-335 | `has_issue` holds exactly of plans with, or without, an issue |
| PlanFilterRows.TitleMeans | backend/store/plan.go:336-337 | `title ==` holds exactly of plans with that title |
| PlanFilterRows.TitleContainsMeans | backend/store/plan.go:389-407 | `title.contains` is as for names of databases |
| PlanFilterRows.SpecTypeMeans | backend/store/plan.go:338-352 | `spec_type ==` takes the three kinds, and holds exactly of plans with a spec of the kind |
| PlanFilterRows.StateMeans | backend/store/plan.go:353-368 | `state ==` takes the three states, with or without `STATE_`, and holds exactly of deleted plans for `DELETED` and of the others otherwise |
| PlanFilterRows.CreateTimeMeans | backend/store/plan.go:372-388 | `create_time >=` holds exactly of plans created then or later, `<=` then or earlier |
| DatabaseListing.CursorRoundTripIff | backend/store/database.go:177-184 | a cursor reads back as its key exactly when project and instance have no colon; the database name may |
| DatabaseListing.KeyLessIsLexicographic | backend/store/database.go:177-184 | keys compare at the first of project, instance and name in which they differ |
| DatabaseListing.PageIsQuery | backend/store/database.go:139-216 | a page is what the assembled query answers: it is refused exactly when the filter compares an environment or an engine; else the first rows of FROM on which the clause with the cursor is true are the page after the cursor of the rows of FROM on which the clause without it is true, on any table in key order |
| DatabaseListing.AcceptedIff | backend/store/database.go:139-199 | whatever the other conditions, the clause names only tables of FROM exactly when no leaf of the filter compares an environment or an engine: these compile to columns of `instance`, which FROM never has |
| DatabaseListing.EngineIsRefused | backend/store/database.go:594-599 | so the filter that compares the engine with `POSTGRES` compiles, and every listing with it is refused |
| DatabaseListing.JoinsIff | backend/store/database.go:143-150 | the schema table is joined exactly when a leaf compares a table, or a label whose name holds `ds.metadata` |
| DatabaseListing.NothingLostIff | backend/store/database.go:143-150 | that inner join leaves the listing as it would be without it exactly when every database on which the clause is true has a schema row |
| DatabaseListing.NamedDatabaseIsLost | backend/store/database.go:143-150 | a filter for a name or a table is true of every database of that name, but one without a schema row is never listed |
| DatabaseListing.ListedIff | backend/store/database.go:139-174 | the clause is true of exactly the databases of which the filter is true, that have every value asked for, and that are not deleted unless deleted ones are asked for too |
| FilterScope.FilterInScope | backend/store/database.go:506-711 | the finished text of an accepted filter names only tables of a FROM with `db` exactly when that has `instance` if a leaf compares an environment or an engine, and `ds` if a leaf compares a table |
| FilterScope.FilterMentions | backend/store/database.go:146-148 | the finished text holds `ds.metadata` exactly when a leaf compares a table or a label whose name does |
| FilterScope.LeafInScope | backend/store/database.go:523-627 | so it is for each single leaf, a label of any quote-free name included |
| DatabaseListing.CursorSelects | backend/store/database.go:177-184 | with the cursor the clause is true on exactly the later rows among those it is true on without |
| DatabaseListing.WalkIsWholeList | backend/store/database.go:177-216 | paging with any limit of at least one ends and concatenates to exactly the sorted unpaged list |
| DatabaseListing.WalkContinues | backend/store/database.go:177-216 | a walk that is not over always has a next page |
| DatabaseListing.BuildWhere | backend/store/database.go:139-184 | FROM and the clause are assembled, condition by condition, in the source's order |
| DatabaseListing.FromIs | backend/store/database.go:139-150 | the text of FROM, with and without the schema table |
| DatabaseListing.WhereMeansAllConditions | backend/store/database.go:139-199 | the clause holds of a row exactly as all its conditions together do, whatever filter is spliced in |
| DatabaseListing.FilterInWhere | backend/store/database.go:143-145 | a spliced filter keeps the meaning of its CEL tree |
| Utf8.SanitizeUTF8String | backend/common/util.go:181-222 | the two loops compute the sanitized text |
| Utf8.SanitizedIs | backend/common/util.go:179-222 | the longest well-formed prefix is kept; after it each byte from 0x20 to 0x7F and each code point of several bytes stays, and every other byte becomes a backslash, `x` and the two lower-case hexadecimal digits of its value, in order |
| Utf8.FindInvalid | backend/common/util.go:184-195 | the first loop stops at the first byte that starts no code point |
| Utf8.SanitizedIsValid | backend/common/util.go:179-222 | the result is always well-formed UTF-8 |
| Utf8.UnchangedIffValid | backend/common/util.go:179-222 | exactly the well-formed texts are left unchanged, so sanitizing is idempotent |
| Utf8.KeepsValidPrefix | backend/common/util.go:184-222 | every well-formed prefix is kept verbatim, the length at most quadruples, and past the first error no control character is left |
| Utf8.LongestValidPrefix | backend/common/util.go:184-195 | the first loop stops where the longest well-formed prefix ends |
| Utf8.DecodeEncode | backend/common/util.go:189-189 | decoding by the syntax of section 4 of RFC 3629 gives back what section 3 encodes, whatever follows |
| Utf8.EncodeIs | backend/common/util.go:189-189 | lengths, first bytes and bits of an encoding are those of the table in section 3 of RFC 3629 |
| Utf8.EncodeDecode | backend/common/util.go:189-189 | whatever decodes without error is the encoding of what it decodes to |
| Utf8.TruncateString | backend/common/util.go:76-87 | the text up to the limit in code points is returned, and whether any was left out |
| Utf8.TruncatedCounts | backend/common/util.go:76-87 | truncating leaves exactly the first code points, and well-formed text well-formed |
| Obfuscation.Obfuscate | backend/common/util.go:98-106 | cyclic exclusive or, then base64; an empty seed panics unless the source is empty |
| Obfuscation.Unobfuscate | backend/common/util.go:108-119 | base64 decoding, failing on malformed text, then the same exclusive or |
| Obfuscation.RoundTrip | backend/common/util.go:98-119 | unobfuscating with the same seed gives every source back, unless obfuscating panics, which it does exactly for an empty seed and a non-empty source |
| Obfuscation.DecodeEncode | backend/common/util.go:105-110 | base64 decoding undoes encoding in all padding cases |
| Obfuscation.EncodeDecodeIff | backend/common/util.go:109-113 | a text that decodes is, line breaks aside, the encoding of its bytes exactly when its unused padding bits are zero |
| Obfuscation.DecodesIff | backend/common/util.go:109-113 | what decodes, line breaks aside, is whole groups of four, of letters but for at most two padding characters at the end |
| Obfuscation.MaskedTwice | backend/common/util.go:99-119 | the exclusive or with the repeated seed undoes itself |
| Obfuscation.XorIs | backend/common/util.go:103-103 | a bit is set exactly when one of the two bytes has it and the other has not |
| Obfuscation.EncodeIs | backend/common/util.go:105-105 | four letters stand for the 24 bits of three bytes, and those at the end for the bits of one or two with zeros behind |
| Obfuscation.LettersAre | backend/common/util.go:105-105 | the alphabet is upper case, lower case, digits, `+` and `/` (section 4 of RFC 4648) |
| Positions.ConvertANTLRPositionToPosition | backend/common/position.go:34-64 | for every text and position: the line and the column clamped to it, one-based; past the last line, the start of the last line; of a text too long for int32, the part the wrapped length leaves |
| Positions.ConvertsIff | backend/common/position.go:29-64 | the position of a code-point offset converts to its line and column plus one exactly when the offset is within the part of the text that the wrapped length leaves and its column is not the largest int32: for a text that int32 can count, but at the end of a single line of 2^31-1 code points, always |
| Positions.OffsetRecovered | backend/common/position.go:29-64 | within that part the offset can be computed back, and a later offset converts to a later position, exactly if its column is not the largest |
| Positions.ExactIff | backend/common/position.go:29-64 | the answer is the position asked for exactly when the text has that line, the line has that column and it is not the largest int32 |
| Positions.PastTheEnd | backend/common/position.go:32-33 | for a line past the text the answer is the end of the text exactly when the last line is empty |
| ResourceNames.GetNameParentTokens | backend/common/resource_name.go:497-512 | the loop returns the tokens, or an error at the first part that does not match |
| ResourceNames.NameParentTokensIff | backend/common/resource_name.go:497-512 | accepted are exactly the names that print slash-free tokens after the prefixes, and those tokens are returned |
| ResourceNames.TaskRunRoundTripIff | backend/common/resource_name.go:582-611 | the printed name of a task run reads back as its five fields, for all 64-bit ids, exactly when neither project nor stage has a slash or starts with `rollout` |
| ResourceNames.TaskRunParsersAgree | backend/common/resource_name.go:380-407 | both task-run parsers agree on every string |
| ResourceNames.StringIsFormatTaskRun | backend/common/resource_ref.go:89-101 | the typed reference prints as the formatter does |
| ResourceNames.StageOfEnvironmentRoundTripIff | backend/common/resource_name.go:266-288 | a printed stage reads back as its project, plan and environment, the empty environment and one called `-` as any stage, exactly when neither project nor environment has a slash or starts with `rollout` |
| ResourceNames.ReleaseFileRoundTripIff | backend/common/resource_name.go:460-478 | a release-file name reads back for every byte string as path exactly when neither id has a slash or is `files` |
| ResourceNames.EscapeRoundTrip | backend/common/resource_name.go:613-619 | percent-decoding undoes percent-encoding for every byte string |
| ResourceNames.EscapedBytes | backend/common/resource_name.go:613-619 | letters, digits and ten marks stand for themselves, every other byte becomes a percent sign and its two upper-case hexadecimal digits |
| ResourceNames.ReleaseFileName | backend/common/resource_name.go:460-478 | the printed text of a release-file name |
| Strings.ParseFormatInt | backend/common/resource_ref.go:222-229 | a printed 64-bit integer parses back |
| Strings.FormatIntIs | backend/common/resource_ref.go:89-101 | an integer is printed by the decimal digits of its absolute value, without a leading zero, behind a minus sign if it is negative |
| Strings.ParseIntIff | backend/common/resource_ref.go:222-229 | what parses is an optional sign and at least one digit, if the value fits 64 bits, and to that value |
| PolicyCache.Store.Run | backend/store/policy.go:438-645 | any sequence of get, list, create, update, delete and eviction answers, and leaves the table, as without a cache |
| PolicyCache.Store.GetPolicy | backend/store/policy.go:438-469 | a get answers as the table alone would, cached "not found" included, and keeps the cache right |
| PolicyCache.Store.ListPolicies | backend/store/policy.go:470-547 | a list is the matching rows, and what it caches is right |
| PolicyCache.Store.CreatePolicy | backend/store/policy.go:549-574 | a create upserts its row and caches it, or fails and changes nothing |
| PolicyCache.Store.UpdatePolicy | backend/store/policy.go:577-620 | an update changes the given fields of the one row and caches it; for an absent policy nothing changes |
| PolicyCache.Store.DeletePolicy | backend/store/policy.go:623-645 | the row goes, and its entry with it |
| PolicyCache.GetMeans | backend/store/policy.go:438-469 | what a get of the table finds: the one policy that agrees with every part given, nothing, or a failure for several |
| PolicyCache.ListMeans | backend/store/policy.go:470-547 | a list has exactly the policies that agree with every part given, and are enforced unless all are asked for |
| PolicyCache.CreateMeans | backend/store/policy.go:549-574 | a create fails, changing nothing, exactly without a workspace or when another one has the id; else the policy is there as given and other ids are as they were |
| PolicyCache.UpdateMeans | backend/store/policy.go:577-620 | an update changes each field given, and no other, of the one policy |
| PolicyCache.DeleteMeans | backend/store/policy.go:623-645 | a delete takes away the one policy |
| PolicyCache.KeyInjective | backend/store/store.go:189-191 | two policies of slash-free workspaces never share a cache key |
| PolicyCache.KeysEqualIff | backend/store/store.go:189-191 | for any workspaces: two keys are equal exactly when they are for one policy or one workspace extends the other by `/policies/`, a resource type and a beginning of the resource |
| PolicyCache.KeysCollide | backend/store/store.go:189-191 | with a slash in a workspace two policies can share a key |
| PolicyCache.CreateThenGet | backend/migrator/migration/LATEST.sql:80-105 | after a create the policy is found, or the create failed, exactly because another workspace has that resource and type: the primary key leaves the workspace out |
| IamPatch.PatchBindings | backend/store/policy.go:58-85 | the loop that edits bindings in place and uses up the role map, then adds what is left in any order, has the effect of the value-level patch |
| IamPatch.HoldsIff | backend/store/policy.go:58-85 | afterwards the member holds a role exactly when the patch names it, or a binding of that role listed the member twice |
| IamPatch.ExactlyTheRoles | backend/store/policy.go:58-85 | the member ends with exactly the roles of the patch, in any order of the map, if and only if no binding of another role lists the member twice |
| IamPatch.OtherMembersUnchanged | backend/store/policy.go:63-77 | no binding is dropped, renamed or moved, and its other members keep their order |
| IamPatch.PatchIdempotent | backend/store/policy.go:58-85 | patching again changes nothing when no binding lists the member twice |
| Components.ScheduleDoesNotMatter | backend/server/parallel_init.go:17-65 | for every interleaving: each component ends as its class and its function's result say (healthy, or after an error degraded if important, disabled if optional, as it was if critical), the rest as before, and the start-up fails exactly when a registered critical component's function did, reporting each once |
| Components.ReadyIff | backend/server/parallel_init.go:17-65 | from a fresh registry, with every critical component included, the start-up succeeds exactly when the registry ends ready |
| Components.ComponentRegistry.IsReady | backend/server/components.go:122-132 | ready means that every critical component is healthy, in any order of the map |
| Components.GoroutineAlone | backend/server/parallel_init.go:22-47 | the steps of one component's goroutine leave it with the outcome of its class and result, the others as they were, and report an error exactly for a registered critical component whose function failed |
| Components.ComponentRegistry.InitComponent | backend/server/parallel_init.go:22-47 | so does its body, through the setters of the registry |
| Components.ComponentRegistry.ParallelInit | backend/server/parallel_init.go:17-65 | run one after the other in any order, the bodies give the registry and the errors that every schedule gives |
| Components.PerformChecks | backend/server/health.go:64-121 | the overall status is unhealthy exactly when the database is or the registry is not ready, and healthy exactly when moreover nothing is degraded or disabled and the pool, if it has a limit, has more than two connections to spare |
| Components.MergeReport | backend/server/health.go:75-92 | the loop over the report gives that status in any order |

## Left out

- FindSimilar: lower-casing and quoting are parameters.
- Migrator: versions are numbers and files are given sorted with distinct versions, which `backend/migrator/migrator_test.go` demands of the shipped files; parsing versions out of paths is not modelled. The user map of the Go migration is one rewriting for all replicas.
- AuditLog: a batch is one atomic step; a row without a user reference holds the empty string.
- ProjectIds: projects are neither created nor deleted during a run, ids do not overflow, and rows carry only what the calls compare.
- PlanCheckRuns: which running rows are stale is arbitrary instead of a timeout; only final statuses are reported by runners.
- RolloutDriver: requests carry names only; the sleep between polls and the messages of errors are dropped; when a context is cancelled is arbitrary.
- QueryBuilder: text is a sequence of tokens, so the `??` escape and spacing are not modelled, nor are the separators of `Comma` and `Where`.
- FilterCompiler: the CEL parser, engine names, time parsing and lower-casing are parameters; a fragment of SQL that holds no connective outside parentheses is one token.
- FilterRows, PlanFilterRows: `name ==` and `title ==` with a value that is no string; how PostgreSQL reads a column or a LIKE is assumed per condition.
- DatabaseListing: the select list, custom orders and offsets, all on columns of `db`; the text of the limit clause; of what makes the database refuse a query, only tables that FROM lacks. Names in a filter are quote-free, as CEL identifiers are.
- TableNames: a name is a run of letters, digits and underscores before a dot outside string literals; quoted identifiers and escapes do not occur.
- Strings: a string is one character per byte; the escape sequences of Go's quoting are absent.
- ResourceNames: the other parsers of the file.
- PolicyCache: an enumeration handed to a statement is taken to be rendered by name; update times and the normal form in which the database stores a payload; concurrent fills of the cache; the deletion of a project, which clears rows but not the cache; the second cache of IAM policies.
- IamPatch: storing the result, and conditions of bindings.
- Components: timings, and the per-component messages of the health report, where a component registered as `database` or `pool` would share a key.
- Not modelled at all: `Uniq`, name validators, random strings, the storing of other entities, capability tables and HTTP handling.
