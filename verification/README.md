# A verified model of the apps repository's core logic

The repository holds the app domains of a larger platform. Most of it is registration
and declaration; this project models the parts that carry logic, and proves what they
promise, or states on exactly which inputs they do not keep the promise.

**The route-pipeline check** (`scripts/check_route_pipeline_contract.py`). `RouteSyntax`
is the parsed form of a router module. `RouteClosure` is the three-pass growth of the set
of helpers that enter the pipeline, characterised for modules of any size and shape.
`RouteSemantics` says how a route body executes, and gives a flow analysis that decides
exactly whether some execution raises `HTTPException`, or leaves the body, before an entry;
`RouteArrivals` decides exactly whether one reaches a raise too late for that. `RouteChecker`
is the check itself, `RouteVerdict` proves when its silence is sound, `RouteHelpers` which
helpers enter on every execution and when silence is sound though others may not,
`RouteAlarms` when alarms are real, and `RouteBlindSpots` has inputs on which the check is wrong.

**Schema migrations** (`alembic/alembic/versions`, `scripts/replay_app_migrations.py`).
`Schema` has tables with rows, three-valued conditions and the operations that migrations
are made of; `Databases` has foreign keys between tables and the statements they stand
against; `Changes` the kinds of change with the exact condition under which upgrade
and downgrade undo each other; `Revisions` lifts that to revisions over a database;
`Independence` shows when looking at the database before the upgrade is enough, and
`Reversal` when the downgrade runs. `RoundTrips` has the exact conditions for separate
changes together, `ColumnTrips` for lists of changes that also add columns, `Unseen` those
for a damage that the snapshot does not show, and `ReplayDamage` lifts both to chains of
revisions and to the replay's verdict.
`DriftRevision`, `EmbeddingRevision` and `IdempotencyRevision` are three revisions of the
repository; `DriftSchema` and `IdempotencySchema` spell out what they make of a database. `Replay` and `ReplayCheck` model the replay script over an in-place
`Database`; `AppReplay`, `AppReplayRows` and `AppReplayVerdict` apply it to a pair of
adjacent revisions.

**The ARM analyzer cache** (`apps/arm/bootstrap.py`). `ArmCache` is the double-checked
singleton with concurrent invalidation as an interleaving of atomic steps of any number of
threads, the unlocked reads being steps of their own; `ArmCalls` has what holds over whole calls.

**The bootstrap aggregator** (`apps/bootstrap.py`). `Boot` is the loop over the boot order
with core and peripheral failures, and sequences of calls with retries.

**Strategy learning** (`apps/rippletrace/flow_strategy.py`). `Strategy` is the table of
scored strategies; scores are counted in units of 0.05.

**Smaller cores**. `FlowResult` (the `HTTP_<code>:<message>` convention of
`apps/_shared/flow.py`), `Serialization` (`materialize`), `Frontmatter` (the built-in
header parser of `scripts/lint_docs.py`), `Archive` (the paginated readers of
`scripts/backfill_content_archive.py`). `PyText` has the Python string operations they use.

Code that updates state in place is modelled by classes and loops proved against
specification functions (`Boot.Bootstrapper`, `Strategy.StrategyTable`,
`Replay.Database`, the checker's and the parsers' loops); expression code is functions.
Where a lemma's name ends in `Exactly`, it states both directions, or the whole result. The table has the main
results; the many lemmas they are built from are not in it.

## Where the code and its own words differ

The model follows the code.

- The closure's docstring promises "any module-level helper that reaches" a pipeline call.
  Three passes find exactly the helpers with a call chain of at most two forward links
  (`RouteClosure.EnteringExactly`); `RouteBlindSpots.ThreeForwardLinksMissed` has one missed.
  And a helper that reaches a pipeline call need not make it: one that enters in one branch
  only silences the check where it is called (`RouteBlindSpots.MaybeHelperHides`).
  `RouteHelpers.SureExactly` says which helpers enter on every execution.
- The check says a raise is a violation when it "appears before the call that enters the
  pipeline". A conditional entry silences it for the rest of the route, and so does a route
  function named like an HTTP verb, whose own decorator then counts as an entry.
  An alarm is false where an execution has entered before the raise: in an earlier round of
  a loop, and, even without a loop, in the decorators or default values of a nested
  function, which run with the route but are not counted. `RouteArrivals.AlarmRealExactly`
  says exactly when an alarm is real.
- `_get_analyzer` looks as if it always returned an analyzer. Its last read is outside the
  lock, so it can return `None`; `ArmCache.NullReturnExactly` says exactly when.
- `update_strategy_score` without a user is not confined to system strategies, although
  `select_strategy` is in the same situation; `Strategy.AnonymousStaysSystemExactly` says
  when it makes no difference.
- `materialize` takes column values as they are, so it removes every row, and is
  idempotent, exactly when columns hold no rows, or plain values.
- A frontmatter header without fields is not recognised, or swallows part of the body.
- The drift revision's downgrade is said to reverse all operations. The index rename is
  conditional: with the old name absent and the new one present, going up and down renames
  an index that the upgrade did not touch. `DriftRevision.DriftUndoneExactly` says when all
  is reversed. The header says that
  guards stand before each NOT NULL enforcement; those of the downgrade have none. And once
  the upgrade has dropped the foreign key from strategies to users, deleting a user leaves
  strategies with an owner that is gone, over which the downgrade cannot create it again.
  `DriftRevision.DriftDowngradesExactly` has both conditions.
- The replay script calls a matching snapshot an identical schema. A snapshot has no
  defaults, index definitions or constraints (`AppReplay.LostDefaultGoesUnseen`); which
  damage it misses can be told from the tables at head (`Unseen.UnseenDamageExactly`,
  `ReplayDamage.ReplayedExactly`, `AppReplayVerdict.PairReplayedExactly`). A replay over a revision that creates tables empties
  them (`AppReplayRows.PairEmptiesTables`). With `--steps 0`, or on a line of one revision, the
  script fails on an empty chain.

## Model

| member | source | states |
|---|---|---|
| RouteClosure.PipelineEnteringNames | scripts/check_route_pipeline_contract.py:68-76 | the three in-place passes return exactly the pipeline calls and the helpers with a call chain of at most two forward links |
| RouteClosure.PassesExactly | scripts/check_route_pipeline_contract.py:71-76 | for every number of passes n: the set is exactly the helpers with a chain of at most n - 1 forward links, at any depth |
| RouteClosure.EnteringExactly | scripts/check_route_pipeline_contract.py:68-76 | a name is held iff some chain of calls leads from it to a pipeline call with at most two forward links; so every held name has a chain |
| RouteClosure.ShortChainsFound | scripts/check_route_pipeline_contract.py:71-75 | every helper within three calls of the pipeline is found, whatever the definition order |
| RouteClosure.BackwardChainsFoundFirst | scripts/check_route_pipeline_contract.py:71-75 | a chain using only earlier-defined callees is found in the first pass, at any depth |
| RouteClosure.OutlineExactly | scripts/check_route_pipeline_contract.py:46-55 | what the closure goes by: whether a module-level statement is a def, its name, and exactly the names of functions or attributes that some statement in it, at any depth and in nested functions too, calls in itself, its decorators or its defaults |
| RouteSemantics.ExposureExactly | scripts/check_route_pipeline_contract.py:21-27 | the flow analysis says "raises" iff some execution, through branches, loops, break, continue and return, raises HTTPException before any entering call |
| RouteSemantics.LeavingExactly | scripts/check_route_pipeline_contract.py:68-76 | the same analysis decides whether some execution completes, returns from or raises out of a helper's body before any entering call |
| RouteChecker.FindingsIn | scripts/check_route_pipeline_contract.py:95-123 | the loop reports exactly the raises of HTTPException outside nested functions with no entering call on the same or an earlier line, be it in a decorator, a default value or a statement outside nested functions |
| RouteChecker.ViolationsIn | scripts/check_route_pipeline_contract.py:79-124 | the report on a module names exactly those raises of the functions, at any nesting depth, that carry a get, post, put, patch or delete decorator of a router |
| RouteChecker.EntriesExactly | scripts/check_route_pipeline_contract.py:101-110 | a line counts as an entry iff a decorator on it makes an entering call, or it is the line of the def and a default value makes one, or a statement there outside nested functions makes one itself |
| RouteChecker.ReportedExactly | scripts/check_route_pipeline_contract.py:111-123 | complete as well as correct: every raise of HTTPException outside nested functions with no entry at or above its line is reported, and nothing else |
| RouteChecker.NestedNeverReported | scripts/check_route_pipeline_contract.py:95-100 | emptying every nested function leaves the report on the enclosing route unchanged |
| RouteVerdict.SilenceSound | scripts/check_route_pipeline_contract.py:95-124 | when the first entry is an unconditional top-level call that surely enters, or there is none, no report means that no execution raises HTTPException before an entry, whichever of the names the check counts really enter |
| RouteVerdict.SilenceWrongExactly | scripts/check_route_pipeline_contract.py:95-124 | a silent verdict is wrong iff the flow analysis finds an exposed raise; then the first entry is one that an execution can miss |
| RouteHelpers.SureExactly | scripts/check_route_pipeline_contract.py:68-76 | a helper enters on every execution, as calls nested one deeper show, iff no execution leaves a body of that name before a call that surely enters |
| RouteHelpers.FreelyExactly | scripts/check_route_pipeline_contract.py:21-27 | letting every other helper of the set enter or not, as it likes, exposes exactly the routes that are exposed when none of them enters |
| RouteHelpers.HelperSilenceSound | scripts/check_route_pipeline_contract.py:68-124 | silence over the computed set is sound when the first entry is an unconditional top-level call of a helper that enters on every execution, or there is no entry |
| RouteArrivals.LatenessExactly | scripts/check_route_pipeline_contract.py:95-123 | for every body and line a two-valued flow analysis says "late" iff some execution reaches the raise there after the pipeline was entered, or enters it in the raise's own arguments |
| RouteArrivals.AlarmRealExactly | scripts/check_route_pipeline_contract.py:113-123 | an alarm is real on every execution iff that analysis finds no late arrival at its line |
| RouteAlarms.LoopFreeAlarmsExactly | scripts/check_route_pipeline_contract.py:95-123 | in loop-free bodies too, alarms are real iff no late arrival is found, and only a decorator or default of a nested function can make one |
| RouteBlindSpots.ConditionalEntryHides | scripts/check_route_pipeline_contract.py:101-117 | a route with an entry in one branch: silent, yet an execution is exposed |
| RouteBlindSpots.MaybeHelperHides | scripts/check_route_pipeline_contract.py:68-117 | a helper that enters in one branch only is in the set: a route that calls it and then raises is silent, yet exposed when the helper takes its other branch |
| RouteBlindSpots.VerbNameHides | scripts/check_route_pipeline_contract.py:101-111 | a route function named "get" that reaches the pipeline: its decorator counts as the entry, so the check is silent over an exposed raise |
| RouteBlindSpots.LoopAlarmMayBeFalse | scripts/check_route_pipeline_contract.py:113-123 | a reported raise in a loop that an execution reaches after the entry of an earlier round |
| RouteBlindSpots.DefaultAlarmIsFalse | scripts/check_route_pipeline_contract.py:95-110 | a loop-free route with an entering call in a nested function's default value, which the check does not count: the raise after it is reported although every execution has entered |
| RouteBlindSpots.ThreeForwardLinksMissed | scripts/check_route_pipeline_contract.py:68-76 | a helper that reaches the pipeline in four calls and is not found |
| ArmCache.Reachable | apps/arm/bootstrap.py:166-180 | in every reachable state the lock is held iff a thread is inside it, by that thread alone, and an analyzer is under construction only over an empty cache |
| ArmCache.SomeThreadMoves | apps/arm/bootstrap.py:169-179 | no deadlock: while a thread is busy some thread can move |
| ArmCache.ClearIsFresh | apps/arm/bootstrap.py:175-180 | right after a clear nothing begun before it is cached or under construction |
| ArmCache.ReturnedIsFresh | apps/arm/bootstrap.py:166-180 | under every interleaving, a return read after a clear yields nothing begun before it, nor built from an older configuration |
| ArmCache.WriteThenInvalidateIsSeen | apps/arm/bootstrap.py:183-194 | an analyzer returned after a write and then a clear was built from a configuration that includes the write |
| ArmCache.CachePersists | apps/arm/bootstrap.py:166-172 | between clears a filled cache keeps its one analyzer |
| ArmCache.NullReturnExactly | apps/arm/bootstrap.py:172 | a getter returns None iff a clear fell after its last check and nothing was installed between that clear and its return read |
| ArmCache.OneInstanceWithoutClears | apps/arm/bootstrap.py:166-172 | without invalidations all getters return the same analyzer, and never None |
| ArmCache.InstallsBalance | apps/arm/bootstrap.py:166-180 | over any stretch of a run: analyzers installed + cached before = live clears + cached after |
| ArmCache.AtMostOneBetweenClears | apps/arm/bootstrap.py:166-180 | between effective invalidations at most one analyzer is installed |
| ArmCache.GetterMayReturnNull | apps/arm/bootstrap.py:172-179 | a run of two threads in which a getter that has just installed an analyzer returns None |
| ArmCalls.NextExactly | apps/arm/bootstrap.py:166-180 | what a thread can do next is exactly what its own past steps and what it saw in them call for; it waits for nothing but the lock |
| ArmCalls.InstalledFrom | apps/arm/bootstrap.py:166-172 | every installed analyzer was begun by its thread finding the cache empty under the lock, and has the configuration of one later moment before its installation |
| ArmCalls.InvalidationClears | apps/arm/bootstrap.py:175-180 | every invalidation call that has returned cleared the cache between its start and its end |
| ArmCalls.InvalidationIsSeen | apps/arm/bootstrap.py:175-194 | over whole calls: after a write and then an invalidation that began and returned, every getter returns an analyzer that has seen the write and was begun after the invalidation was, or nothing |
| Boot.Bootstrapper.Bootstrap | apps/bootstrap.py:208-283 | the in-place loop leaves globals and publications as one pass over the boot order prescribes, also when it raises |
| Boot.PassExactly | apps/bootstrap.py:229-283 | a pass registers and degrades exactly the domains before the first one that stops it, in boot order, and raises for that one; it completes iff none stops it |
| Boot.CompletedPartitions | apps/bootstrap.py:258-283 | on return the registered and degraded domains split the boot order, in order, none twice; no domain that the metadata call core is degraded |
| Boot.RaisedStopsThere | apps/bootstrap.py:236-267 | on a raise the culprit is the first domain with core metadata that fails or has a failed dependency, named with exactly those dependencies; nothing after it was attempted, and the degraded list is exactly the peripherals that failed before it |
| Boot.CompletesExactly | apps/bootstrap.py:232-267 | in a topological order a boot completes iff every core domain and everything a core domain directly depends on registers |
| Boot.CoreRegistersAfterDependencies | apps/bootstrap.py:232-256 | on completion every core domain registered after all its declared dependencies |
| Boot.CallExactly | apps/bootstrap.py:208-283 | a call that does work publishes as core exactly the domains whose metadata say so, as degraded what its pass degraded, adds what it registered, and marks the system booted iff it completes |
| Boot.RetriesStartAfresh | apps/bootstrap.py:208-230 | over any calls of which none completes, each starts afresh; only registrations accumulate and the last degraded list stays |
| Boot.FirstCompletionIsFinal | apps/bootstrap.py:208-211 | over any sequence of calls the first that completes is the last that does anything |
| Strategy.StrategyTable.First | apps/rippletrace/flow_strategy.py:15-23 | the argmax scan finds a matching row that none beats, none iff none matches |
| Strategy.StrategyTable.SelectStrategy | apps/rippletrace/flow_strategy.py:7-44 | the in-place selection: one best own row, else one best system row, is counted as used and its flow returned |
| Strategy.StrategyTable.UpdateStrategyScore | apps/rippletrace/flow_strategy.py:47-70 | the in-place update: one best row in scope is judged by the outcome, all others stay |
| Strategy.SelectExactly | apps/rippletrace/flow_strategy.py:7-44 | a selection returns the flow of one best strategy for the intent, of the user's own or, if there are none, of the system's, counts one use of it and changes nothing else |
| Strategy.UpdateExactly | apps/rippletrace/flow_strategy.py:47-70 | an update raises exactly one best score by 0.1, at most to 2.0, and counts a success, or lowers it by 0.15, at most to 0.1, and counts a failure; nothing else changes |
| Strategy.FailureDemotes | apps/rippletrace/flow_strategy.py:59-68 | a failed update takes exactly one level off the whole table until none is left, because it hits a current maximum |
| Strategy.DemotionExactly | apps/rippletrace/flow_strategy.py:47-70 | after consecutive failures all matching strategies sit at the floor iff there were at least as many failures as levels |
| Strategy.DemotionBound | apps/rippletrace/flow_strategy.py:47-70 | thirteen failures per matching strategy always suffice |
| Strategy.PromotionExactly | apps/rippletrace/flow_strategy.py:59-65 | after n consecutive successes the best score has risen by exactly 0.1 for each, up to 2.0 |
| Strategy.RunKeepsLedger | apps/rippletrace/flow_strategy.py:7-70 | over any run on any table: total uses and verdicts count exactly the operations that found a row; a row in [0.1, 2.0] stays there, and one within 1.0 - 0.15 failures .. 1.0 + 0.1 successes stays within that |
| Strategy.SelectPrefersOwn | apps/rippletrace/flow_strategy.py:14-44 | a select changes no score, prefers a highest-scored own strategy and finds nothing iff there is neither an own nor a system one |
| Strategy.OwnedUpdateStaysHome | apps/rippletrace/flow_strategy.py:54-59 | an update for a user touches no other user's and no system strategy |
| Strategy.AnonymousStaysSystemExactly | apps/rippletrace/flow_strategy.py:54-59 | an update without a user can change no owned strategy iff no owned strategy is among the best for the intent |
| Strategy.AnonymousUpdateHitsOwned | apps/rippletrace/flow_strategy.py:54-59 | a table on which such an update must judge a user's own strategy |
| Serialization.RowsRemovedExactly | apps/_shared/serialization.py:39-54 | no row is left at any depth iff no reached row holds a row in a column |
| Serialization.FixedExactly | apps/_shared/serialization.py:44-54 | the identity exactly on values built from scalars, foreign objects, lists and dicts |
| Serialization.IdempotentExactly | apps/_shared/serialization.py:39-54 | twice is the same as once iff the columns of the reached rows hold plain values |
| Serialization.PlacesExactly | apps/_shared/serialization.py:39-54 | at every place outside columns: a row has become the dict of its own columns, a mapping a dict with the same keys in order, a list, tuple or set a list of the same length, anything else has stayed; and nothing else is in the result |
| FlowResult.SignalReads | apps/_shared/flow.py:99-110 | for every code and message, colons included, the signal decodes to that code and message |
| FlowResult.MessageFoundExactly | apps/_shared/flow.py:50-68 | the failure message is m iff m stands at top level, or under data with nothing usable above, or under result with nothing usable before |
| FlowResult.RaisesExactly | apps/_shared/flow.py:95-113 | every failed envelope, whatever its message, raises an HTTP error, and every other status returns the envelope unchanged |
| FlowResult.NoMessageExactly | apps/_shared/flow.py:50-68 | no message is found iff none of the three places has a non-empty string where it counts |
| FlowResult.PlainFailureExactly | apps/_shared/flow.py:99-111 | a failure without the prefix is a 500 with its message, or with "<flow> failed" when there is none |
| FlowResult.SignalledFailureExactly | apps/_shared/flow.py:99-110 | for every message with the prefix: the status is the number before the first colon, less each HTTP_, with what follows as detail, or the whole message without a colon; if no number stands there it is a 500 with the whole message |
| FlowResult.ReadIntExactly | apps/_shared/flow.py:101-105 | a text reads as a status iff it is digits with single underscores between them, with at most one sign and blanks around, of that decimal value |
| FlowResult.SignalReachesClient | apps/_shared/flow.py:95-110 | a failed envelope signalling a status at any of the three places raises exactly that status and message |
| Frontmatter.ParseSimpleYaml | scripts/lint_docs.py:61-71 | the line loop fills the fields that the lines denote, later lines winning |
| Frontmatter.ParseFrontmatter | scripts/lint_docs.py:74-90 | the result of normalising, finding the header and reading its lines |
| Frontmatter.LineRoundTripExactly | scripts/lint_docs.py:64-70 | a written line reads back as its key and value iff they are admissible |
| Frontmatter.LineReadExactly | scripts/lint_docs.py:63-70 | any line yields key and value iff, blanks removed, it is no comment and they stand on either side of its first colon, the value within any double and then any single quotes |
| Frontmatter.UnquotedReads | scripts/lint_docs.py:68-70 | an unquoted value reads back as it stands, colons included |
| Frontmatter.SingleQuotedReads | scripts/lint_docs.py:68-70 | a single-quoted value reads back with its blanks and double quotes |
| Frontmatter.SplitAtBreak | scripts/lint_docs.py:63 | lines end at each of the ten line-breaking characters, or at a CR with its LF |
| Frontmatter.HeaderRead | scripts/lint_docs.py:74-90 | the header read is what stands between a first line of three dashes and the next such line past the second |
| Frontmatter.MissingExactly | scripts/lint_docs.py:75-81 | there is no header iff the first line is another or no such line follows |
| Frontmatter.DocumentRoundTrip | scripts/lint_docs.py:61-90 | a document written with at least one field reads back as its fields, for every body |
| Frontmatter.EmptyHeaderLostExactly | scripts/lint_docs.py:76-81 | a document without fields has no header for the parser iff no end marker occurs further down |
| Frontmatter.EmptyDocumentReadsExactly | scripts/lint_docs.py:74-90 | a document without fields reads back as no fields iff a marker occurs further down and every line before it is blank, a comment or without a colon |
| Frontmatter.LineEndingsParseAlike | scripts/lint_docs.py:74-82 | the CRLF and LF forms of a text parse alike |
| Archive.DevToEntries | scripts/backfill_content_archive.py:90-112 | numbered pages of a hundred yield exactly what was served before the end or the first failing page, and terminate |
| Archive.SubstackEntries | scripts/backfill_content_archive.py:115-136 | offsets in steps of fifty yield exactly what was served before the end or the first failing page, and terminate |
| Archive.Collect | scripts/backfill_content_archive.py:145-156 | linked and titled entries are kept, also of what came before an error |
| Archive.CollectedExactly | scripts/backfill_content_archive.py:90-156 | there is exactly one entry for each dated, linked and titled item served, in order, with its url, title and date; its description and tags for dev.to, its subtitle or else description and no tags for Substack |
| Schema.StepKeepsWellFormed | alembic/alembic/versions/045921eda2ca_sync_schema_model_drift.py:87-416 | every operation fails or keeps: no NULL in a NOT NULL column, unique and partial unique rules true of the rows, indexes over existing columns |
| Schema.GuardedEnforceNeverRejected | alembic/alembic/versions/045921eda2ca_sync_schema_model_drift.py:63-97 | after the guard the database never rejects SET NOT NULL; the guard stops it exactly when there are NULLs, with their number |
| Schema.CreateIndexExactly | alembic/alembic/versions/1b2c3d4e5f6a_add_freelance_idempotency_keys.py:23-30 | an index can be created iff its name is free, its columns are there and, if it is unique, no two rows it covers have the same non-NULL values |
| Schema.AddConstraintExactly | alembic/alembic/versions/045921eda2ca_sync_schema_model_drift.py:649-653 | a unique constraint can be declared iff its name is free, its columns are there and no two rows have the same non-NULL values in them |
| Changes.UndoneExactly | alembic/alembic/versions/045921eda2ca_sync_schema_model_drift.py:87-676 | downgrade after upgrade of a change gives the very table back, rows included, iff the upgrade found it as expected |
| Changes.RedoneExactly | scripts/replay_app_migrations.py:186-197 | upgrade after downgrade gives the schema back iff the downgrade found the table as expected, whatever the rows in between |
| Unseen.SeenExactly | scripts/replay_app_migrations.py:94-107 | for every kind of change: going down and up leaves the snapshot of the table alike iff the table at head met a condition weaker than the downgrade's expectation, spelled out per kind |
| Unseen.UnseenDamageExactly | scripts/replay_app_migrations.py:186-209 | the schema is damaged and the snapshot does not show it iff the table at head met the weaker condition and not the full one |
| RoundTrips.NestedEach | alembic/alembic/versions/045921eda2ca_sync_schema_model_drift.py:87-676 | separate changes turned in order and back in reverse each come out as if made alone |
| RoundTrips.UndoneTogetherExactly | alembic/alembic/versions/045921eda2ca_sync_schema_model_drift.py:87-676 | separate changes of a table are undone together iff each found the table as expected |
| ColumnTrips.DownUpElsewhere | scripts/replay_app_migrations.py:186-197 | an index or constraint that no change names is lost on the way down and up iff it is over a column that one of them adds |
| ColumnTrips.RedoneTogetherExactly | scripts/replay_app_migrations.py:186-197 | separate changes of a table, column additions with indexes over them included, leave the schema the same after downgrade and upgrade iff everything they name was as their upgrades leave it and nothing else was over an added column |
| Unseen.SeenTogetherExactly | scripts/replay_app_migrations.py:94-107 | such changes leave the snapshot of the table the same iff what they name met the weaker conditions and no index name was lost with an added column |
| Databases.MigrationKeepsSound | alembic/alembic/versions/1b2c3d4e5f6a_add_freelance_idempotency_keys.py:21-139 | any migration over any database fails or keeps every table well formed and every foreign key finding its referenced row |
| Databases.HonouredExactly | alembic/alembic/versions/045921eda2ca_sync_schema_model_drift.py:488-493 | a foreign key can be declared iff the referenced table and columns are there and every row has a NULL among its columns or the values of a referenced row |
| Databases.DropColumnExactly | alembic/alembic/versions/1b2c3d4e5f6a_add_freelance_idempotency_keys.py:138-139 | a column can be dropped iff it is there and no foreign key refers to it but one of the same table that goes with it |
| Databases.DropTableExactly | alembic/alembic/versions/1b2c3d4e5f6a_add_freelance_idempotency_keys.py:117-136 | a table can be dropped iff it is there and no other table has a foreign key to it |
| Databases.MigrationSchema | scripts/replay_app_migrations.py:186-195 | databases with the same schema have the same schema after a migration that runs on both |
| Databases.RowsKept | scripts/replay_app_migrations.py:143-153 | a migration keeps the rows of a table in every column that none of its operations writes or drops |
| Revisions.RevisionUndone | alembic/alembic/versions/1b2c3d4e5f6a_add_freelance_idempotency_keys.py:21-139 | on a sound database the downgrade right after an upgrade runs, whatever foreign keys refer to its tables, and gives back the whole database, rows included |
| Revisions.RevisionRedone | scripts/replay_app_migrations.py:186-197 | upgrading after a downgrade that found every change in place gives back the schema of the whole database |
| ReplayDamage.PostIsRedone | scripts/replay_app_migrations.py:186-197 | every database that meets a revision's post-state meets the hypothesis of the replay theorem |
| ReplayDamage.RevisionUndoneExactly | alembic/alembic/versions/045921eda2ca_sync_schema_model_drift.py:87-676 | for separate changes over distinct tables, the downgrade gives back the very database iff every change found its table as expected |
| ReplayDamage.RevisionSeenExactly | scripts/replay_app_migrations.py:186-209 | for any revision of such changes and created tables: after down and up the schema of the database is the same iff every table at head was as its changes leave it or as it is declared, the snapshot iff it was so as far as a snapshot looks |
| ReplayDamage.ReplayedExactly | scripts/replay_app_migrations.py:183-209 | a replay of any number of revisions that runs through ends with `Replayed` iff all weaker conditions held at head for the changes of all walked revisions together, and has restored the schema iff all full ones did |
| ReplayDamage.CreatedExactly | scripts/replay_app_migrations.py:186-209 | for a table created with indexes only: both conditions spelled out by columns, constraints and index names at head |
| Independence.UpgradeRunsExactly | alembic/alembic/versions/045921eda2ca_sync_schema_model_drift.py:87-416 | a revision of separate changes over distinct tables that are as expected runs iff no guarded column holds a NULL, and otherwise a guard stops it, never the database |
| Independence.CreatesRunExactly | alembic/alembic/versions/1b2c3d4e5f6a_add_freelance_idempotency_keys.py:32-114 | creating tables with their indexes succeeds iff none of them exists and every table and column that their foreign keys refer to does, or was created before |
| Independence.UpgradeKeepsRows | alembic/alembic/versions/045921eda2ca_sync_schema_model_drift.py:87-416 | upgrades that add no column keep all rows, and all of the tables they do not name |
| Reversal.DowngradeRunsExactly | alembic/alembic/versions/045921eda2ca_sync_schema_model_drift.py:423-676 | a whole downgrade runs iff no column that becomes NOT NULL again holds a NULL and the rows satisfy every index, constraint and foreign key that it creates again, else the database rejects it |
| DriftRevision.DriftUndone | alembic/alembic/versions/045921eda2ca_sync_schema_model_drift.py:87-676 | for every database that meets the expected state, downgrade after upgrade gives back that very database |
| DriftRevision.DriftUndoneExactly | alembic/alembic/versions/045921eda2ca_sync_schema_model_drift.py:87-676 | wherever the upgrade runs, the downgrade gives back that very database iff every change found its table as expected |
| DriftRevision.DriftKeepsRows | alembic/alembic/versions/045921eda2ca_sync_schema_model_drift.py:87-416 | the upgrade keeps every row, and all of every table it does not name |
| DriftRevision.DriftRunsExactly | alembic/alembic/versions/045921eda2ca_sync_schema_model_drift.py:63-212 | on an expected database the upgrade runs iff the four guarded user_id columns hold no NULL, and it is stopped by a guard, never by the database |
| DriftRevision.DriftDowngradesExactly | alembic/alembic/versions/045921eda2ca_sync_schema_model_drift.py:423-676 | whatever rows were written since the upgrade, the downgrade runs iff no relaxed column holds a NULL and every strategy's user_id is NULL or the id of a user; otherwise the database rejects it, no guard being there |
| DriftRevision.DriftRedone | scripts/replay_app_migrations.py:186-197 | over a database with the schema its upgrade left, down and up gives that schema back |
| DriftRevision.DriftReplayedExactly | scripts/replay_app_migrations.py:183-209 | a replay of this revision that runs through ends with `Replayed` iff its tables at head met the weaker conditions of all changes, and has restored the schema iff they met the full ones |
| DriftSchema.DriftUpgradeExactly | alembic/alembic/versions/045921eda2ca_sync_schema_model_drift.py:87-416 | wherever the upgrade runs, every table is what is spelled out for it by literal names: the columns and uniqueness of each new index, the indexes and constraints gone, each altered column with its type and nullability; nothing else changes |
| DriftSchema.DriftDowngradeExactly | alembic/alembic/versions/045921eda2ca_sync_schema_model_drift.py:423-676 | the same for the downgrade: each index and constraint created again with its columns, each one dropped, each column restored; nothing else changes |
| EmbeddingRevision.PendingExactly | alembic/alembic/versions/0a1b2c3d4e5f_add_memory_embedding_pending.py:22-39 | after the upgrade the flag is false exactly on rows with an embedding and status complete, NULL statuses included; all other cells are kept; the column is NOT NULL without default |
| EmbeddingRevision.EmbeddingUpgradeExactly | alembic/alembic/versions/0a1b2c3d4e5f_add_memory_embedding_pending.py:21-39 | the upgrade changes nothing but memory_nodes, and there only adds the NOT NULL flag without default and its plain index, by name |
| EmbeddingRevision.EmbeddingDowngradeExactly | alembic/alembic/versions/0a1b2c3d4e5f_add_memory_embedding_pending.py:42-44 | the downgrade takes the flag from schema and rows, with its index and whatever else is over the flag, and changes nothing else |
| EmbeddingRevision.EmbeddingRunsExactly | alembic/alembic/versions/0a1b2c3d4e5f_add_memory_embedding_pending.py:21-39 | the upgrade runs iff the table and the columns it reads exist and flag and index do not, whatever the rows |
| EmbeddingRevision.EmbeddingUndone | alembic/alembic/versions/0a1b2c3d4e5f_add_memory_embedding_pending.py:21-44 | wherever it ran, the downgrade gives back that very database |
| IdempotencyRevision.IdempotencyRunsExactly | alembic/alembic/versions/1b2c3d4e5f6a_add_freelance_idempotency_keys.py:21-114 | the upgrade runs iff orders and users exist with their ids, orders have neither key nor index, and the three tables do not exist |
| IdempotencyRevision.IdempotencyUndone | alembic/alembic/versions/1b2c3d4e5f6a_add_freelance_idempotency_keys.py:21-139 | wherever it ran, the downgrade gives back that very database |
| IdempotencySchema.IdempotencyUpgradeExactly | alembic/alembic/versions/1b2c3d4e5f6a_add_freelance_idempotency_keys.py:21-114 | wherever it runs, orders get the column, empty, and its partial unique index, and the three tables are there, empty, with every column, index and constraint spelled out; nothing else changes |
| IdempotencySchema.IdempotencyDowngradeExactly | alembic/alembic/versions/1b2c3d4e5f6a_add_freelance_idempotency_keys.py:117-139 | the downgrade drops the three tables with their rows, and the key of the orders with all that is over it; nothing else changes |
| Replay.WalkDown | scripts/replay_app_migrations.py:77-91 | the walked chain is the newest min(steps, length - 1) revisions, newest first |
| Replay.WalkLeavesBase | scripts/replay_app_migrations.py:83-91 | the walked chain never includes the base, the target of the downgrade is a revision, and the chain is empty iff steps is not positive or there is only the base |
| Replay.Database.Run | scripts/replay_app_migrations.py:52-59 | statements are executed in place until one fails |
| Replay.Database.Downgrade | scripts/replay_app_migrations.py:186-187 | lands on the target after the downgrades of the chain, newest first, or changes nothing |
| Replay.Database.UpgradeToHead | scripts/replay_app_migrations.py:192-194 | lands on the head after the upgrades of the chain, oldest first, or changes nothing |
| ReplayCheck.TakeSnapshot | scripts/replay_app_migrations.py:94-107 | the loop records types, nullability and index names of every table |
| ReplayCheck.ReplayNewest | scripts/replay_app_migrations.py:156-214 | verdict, tables and version the script ends with in every case: not at head, nothing to replay, seed failed, migration failed, snapshot differing, seed lost, replayed; seeding and checking are parameters |
| ReplayCheck.ScriptEndExactly | scripts/replay_app_migrations.py:156-214 | every way to end, with its exact condition, tables and version: after a run through, `SchemaDiffers` names exactly the tables whose columns, types, nullability or index names changed; `SeedLost` iff none did and the check fails; `Replayed` iff none did and it succeeds; a failed upgrade leaves the database down |
| ReplayCheck.SeedSurvives | scripts/replay_app_migrations.py:143-153 | a final check of columns that no walked statement writes never finds the seed rows lost |
| ReplayCheck.ReplayIdentity | scripts/replay_app_migrations.py:175-214 | if every walked revision restores the schema after its own downgrade, the replay fails in a migration or ends at head with a matching snapshot and the very schema it began with |
| ReplayCheck.UndoneIsRedone | scripts/replay_app_migrations.py:186-197 | a revision whose downgrade undid its upgrade is redone on every database with the schema it left |
| ReplayCheck.InstalledIsRedone | scripts/replay_app_migrations.py:186-197 | a database that got to the head by upgrades that their downgrades undo meets the hypothesis of the replay theorem, however its rows changed since |
| ReplayCheck.ReplayKeepsRows | scripts/replay_app_migrations.py:143-153 | rows keep their values, in order, in every column no walked statement writes or drops |
| AppReplay.SteadyReplays | scripts/replay_app_migrations.py:175-214 | over revisions that drop only on the way down and run over any rows on the way up, the replay always ends well |
| AppReplay.PairReplays | alembic/alembic/versions/1b2c3d4e5f6a_add_freelance_idempotency_keys.py:14-139 | replaying one or both of the two adjacent revisions, over whatever rows, ends with `Replayed` and the schema unchanged |
| AppReplayVerdict.PairReplayedExactly | alembic/alembic/versions/1b2c3d4e5f6a_add_freelance_idempotency_keys.py:14-139 | over any database, a replay of one or both that runs through ends with `Replayed` iff the key, the flag and the three tables look as the upgrades leave them, and restores the schema iff they are so and nothing else is over key or flag |
| AppReplay.LostDefaultGoesUnseen | scripts/replay_app_migrations.py:94-107 | a replay that loses a column default ends with `Replayed` |
| AppReplayRows.PairKeepsRows | scripts/replay_app_migrations.py:143-153 | a replay of the two revisions keeps every other table's rows, and memory nodes and orders but for the flag, if its revision is walked, and the key |
| AppReplayRows.PairEmptiesTables | alembic/alembic/versions/1b2c3d4e5f6a_add_freelance_idempotency_keys.py:117-139 | a replay that ends well has emptied the three tables the revision creates |
| AppReplayRows.PairClearsKeys | alembic/alembic/versions/1b2c3d4e5f6a_add_freelance_idempotency_keys.py:21-30 | after a replay no order has an idempotency key |
| AppReplayRows.PairComputesFlags | alembic/alembic/versions/0a1b2c3d4e5f_add_memory_embedding_pending.py:26-33 | after a replay of both, every memory node has the flag that the backfill computes from its embedding and status, whatever was written before |
| AppReplayRows.PairKeepsAllExactly | scripts/replay_app_migrations.py:143-153 | a replay of the pair that ends well keeps every cell of every row iff the three tables are empty, no order has a key and all flags are as computed |

## Left out

- Everything under `AINDY.*`: flow engine, boot-order resolver, registries, dispatcher. A
  topological, duplicate-free boot order and the result of a flow are inputs.
- Routes: parsing Python, try/except, several statements on a line or one over several lines,
  import aliases, calls inside lambdas and comprehensions, the text and order of the report.
  An attribute call counts as a call of the function of that name, and a called name outside
  the set never enters the pipeline.
- Cache: steps are sequentially consistent; failures of construction release the lock and leave
  the cache as it was; the event bus that delivers the configuration update is an input.
- Boot: loading and checking the metadata, ordering warnings, logging; exceptions of a domain's
  import, registration and publication are one set of working domains per call.
- Strategy: sessions and commits, float rounding (scores are exact multiples of 0.05), and
  `flow_name`, which the code does not use.
- Serialization: generator and dict-view arguments, and how the ORM tells a row from other objects.
- FlowResult: Unicode digits and the length limit of `int()`; envelopes that are not dicts.
- Frontmatter: the path through PyYAML when it is installed; duplicate normalisation of Unicode.
- Archive: HTTP, delays, date parsing; a server that answers with short pages before its end.
- Schema: types are names, casts (`strategies.updated_at`) and sequences behind integer keys are
  not modelled; the referenced columns of a foreign key need not be unique, and deleted rows do
  not cascade; index names are per table; creating an index takes no lock and no time.
- Revisions: all other revisions, merge revisions, and the guards of revisions not modelled.
- Replay: the URL refusal and the printed report; which rows are seeded and what is checked of them
  are parameters; a command is one transaction, and no other session changes the database in between.
- Replays over revisions that change the same column, index or constraint twice, or rename an index
  of a table they add a column to: whether they damage a schema unseen is not stated.
- UI, smoke and audit scripts, ORM declarations, health checks: no algorithm, or I/O only.
