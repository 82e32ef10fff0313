# A verified model of the trading app's riskiest logic

The repository runs an automated XAUUSD trading app: a broker bridge over the MetaTrader 5
terminal, a SQLite schema that migrates itself at every start, tools that replay trades under other
rules, and audit tools that guard its own refactoring. This project models the parts where a mistake
is expensive and hard to see, and proves what each of them promises for every input, run or
interleaving. Where a promise turns out not to hold everywhere, the exact condition is proved instead.

`dafny verify dfyconfig.toml` checks everything.

## The parts

- **Name resolution** (`NameResolution`, `PythonScopes`, `ScopeExamples`, `ClassScopes`,
  `NameAnalyser`). The analyser
  flattens Python's nested scopes into one `visible` set. `NameResolution` shows exactly what it
  reports: loads are reached by paths, paths collect scopes, and what a scope collects is found by
  further paths. `PythonScopes` holds Python's own rule (sections 4.2.1, 4.2.2 and 6.2.4 of the Python
  Language Reference), `global`, `nonlocal`, assignment expressions, whole-comprehension scopes and
  `match` captures included, and what Python evaluates where the analyser does not look, and proves
  exactly where the analyser leaves it; `ScopeExamples` has inputs. `ClassScopes` does the same for class
  bodies and `NameAnalyser` is the program's loops.
- **Migrations** (`Migrations`, `StatementEffects`, `Stamps`, `MergeReplay`, `Transactions`, `IndexGap`,
  `PartialCloses`, `ChannelMerge`, `LegacyUpgrade`, `Registry`, `MigrationRunner`). A database of tables, columns, rows,
  indexes and a version stamp. Crashes may come after any statement, each durable once it returns;
  `Transactions` then redoes crash-resume under the application's own connection, where one transaction
  covers a start from its first row-changing statement on. `Registry.Steps` lists all 47 steps
  statement by statement. `Registry.RegistryIsListed` shows that the list is `Listed`, and the results
  about the registry are stated for every `Listed` list.
- **Backfills** (`Backfills.dfy`). Once-only corrections over any sequence of starts and user edits.
- **Broker bridge** (`CallLock`, `Orders`, `Candles`). The lock protocol over all interleavings, order
  sending against a broker that may answer anything, stop clamping with its roundings, and candle
  fetching from a terminal on a shifted clock.
- **Research tools** (`ExitPolicy`, `TradePrices`, `RiskReplay`). The trade-path simulator and the bankroll replay.
- **Orphan modules** (`Reachability.dfy`), **render gate** (`RenderCache.dfy`) and **extraction
  comparison** (`Normaliser.dfy`).

## What the proofs brought up

- Migration step 33 is not idempotent statement by statement. Its second UPDATE carries an override
  one wrapping inwards: with an override two or more `Telegram Auto (...)` wrappings away from a
  surviving channel, replaying it changes the result, and so does the order in which it visits the rows
  if its subquery sees rows already updated (`ChannelMerge.CarryOrderExactly`). Where statements are durable one by one that is
  the only exception to crash-resume in the registry (`Registry.RegistryResumesExactly`). The
  application's own connection hides it, because a crash there undoes the UPDATE: under its transaction
  crash-resume has no exception at all (`Transactions.TransactionalResumes`).
- The same step promises that a merged channel is not paused. REPLACE strips every closing bracket and
  every inner `Telegram Auto (`, so a channel whose own name contains either keeps its pause unless
  another wrapped row happens to unwrap to it (`ChannelMerge.MergedPause`).
- A crash between the DROP and the CREATE of step 32 leaves stamp 31 and no index at all. That is the
  one thing a stamp does not promise, and exactly when it happens is proved for every schedule of
  crashes (`IndexGap.IndexMissingExactly`). The transaction prevents it except on a database already
  stamped 31 (`IndexGap.TxIndexMissingExactly`); the next start repairs it.
- The call lock is not reentrant, and handlers that hold it call `_connect` or `_disconnect`, which take
  it again; the thread then waits for itself and no native call is made any more
  (`CallLock.WedgedForEver`). POST `/reconnect` always gets there. POST `/credentials` can, when the new
  login does not take; and while credentials are known and the connection is down so can the tick pump,
  `/tick`, the GETs for market and account data and the POSTs that trade (`CallLock.WedgesExactly`).
- A deal can be reported as an error: when the order call raises, and when the broker answers with a
  code other than DONE, 10004, 10018 and 10030 although it executed, such as 10010 for a partial fill.
  Those are all the cases (`OrderSend.HiddenDealExactly`).
- Clamped stops keep the broker's distance only while a point is worth at least half a cent
  (`Stops.DistanceExactly`).
- The pip correction multiplies again at every pass while `app_config` does not exist
  (`Backfills.OnceNeedsConfig`). An application start creates that table before the backfills, so this
  concerns a pass on a bare connection only.
- The name analyser misses an undefined name in class-free code exactly where the load stands in the
  target of a comprehension clause (`[0 for q.x in z]` reads `q`), or a scope around it declares the name
  `global` or `nonlocal` or stores to it in a `match` (`PythonScopes.UnresolvedExactly`). A function moved
  without the module variable its `global` statement names goes unreported
  (`ScopeExamples.StrayGoesUnreported`).
- It raises false alarms for names bound under `global` in a function only, for assignment expressions
  inside comprehensions and def headers, `match` captures, `del` targets and `type` aliases, and for
  later `for` clauses of a comprehension (`PythonScopes.NoFalseAlarmExactly`); in classes also for an
  outer name the body rebinds (`ClassScopes.MethodVerdict`) and for a property setter's decorator,
  unless the property has a builtin's name (`ClassScopes.HeaderFalsePositive`).

Where code and documentation disagree the model follows the code. `statement_shape` says it flattens
depth-first, but it walks breadth-first. The analyser says that `global` and `nonlocal` bind where they
say they do, but it binds them in the declaring scope.

## Model

| member | source | states |
|---|---|---|
| NameAnalyser.CollectBound | tools/refactor_audit/undefined_names.py:73-125 | the names collected for a scope are exactly those met at the end of some path that does not leave the scope |
| NameResolution.BoundHereExact | tools/refactor_audit/undefined_names.py:73-125 | the flat set collected for a body and those paths agree on every name, `global`, `nonlocal` and `match` rules included |
| NameResolution.ImportedExactly | tools/refactor_audit/undefined_names.py:91-95 | an import binds exactly its aliases: `as n` binds n, a plain `import a.b` the part before the first dot, a star nothing |
| NameResolution.FirstPartExact | tools/refactor_audit/undefined_names.py:91-95 | that part is the longest piece without a dot |
| NameResolution.TargetNamesExact | tools/refactor_audit/undefined_names.py:59-70 | an assignment target binds exactly the names at the end of a path through tuples and stars |
| NameResolution.StoredExact | tools/refactor_audit/undefined_names.py:114-117 | a `match` binds exactly the names stored somewhere below it |
| NameResolution.OwnsExact | tools/refactor_audit/undefined_names.py:73-125 | what one node of a scope binds by itself, kind by kind in terms of aliases, target paths and stores |
| NameResolution.ReportsUnfold | tools/refactor_audit/undefined_names.py:144-193 | a finding below a node comes through one of its sub-expressions, checked with exactly the scopes entered on the way added to `visible` |
| NameResolution.ReportedExactly | tools/refactor_audit/undefined_names.py:144-193 | for class-free code at any nesting, a name is reported iff it is neither visible nor builtin and some load of it among the sub-expressions the analyser checks stands where no scope entered on its path collects it |
| NameResolution.FlatExact | tools/refactor_audit/undefined_names.py:144-251 | the same for a whole module and its static chains, over the loads the analyser checks |
| PythonScopes.BodiesCompared | tools/refactor_audit/undefined_names.py:73-125 | body by body: what is collected is bound in Python or declared or stored in a `match`; what Python binds is collected or hidden from the analyser |
| PythonScopes.CheckedUnlessInTarget | tools/refactor_audit/undefined_names.py:177-188 | what the analyser checks of class-free code is what Python evaluates, all but the targets of comprehension clauses |
| PythonScopes.ReportsReads | tools/refactor_audit/undefined_names.py:144-251 | a finding stands for a load Python evaluates, outside clause targets, that no scope around it collects, and the other way round |
| PythonScopes.NothingMissedExactly | tools/refactor_audit/undefined_names.py:21-31 | in no scope of a class-free module is a name visible to the analyser that Python does not find there iff no scope has a cause: a `global` name nothing binds in the module, a `nonlocal` name no enclosing function binds, a name a `match` stores in nested scopes only |
| PythonScopes.NoFalseAlarmExactly | tools/refactor_audit/undefined_names.py:21-31 | nor is one found and not visible iff no scope has a cause for that: a name bound under `global` elsewhere, out of sight, or by a later `for` clause, and collected nowhere around |
| PythonScopes.JudgedExactly | tools/refactor_audit/undefined_names.py:21-31 | together: name by name the analyser sees in every scope what Python finds iff there is no cause |
| PythonScopes.ModuleExact | tools/refactor_audit/undefined_names.py:144-251 | without causes for a name it is reported on a line iff it is no builtin and a load of it there, outside clause targets, resolves nowhere by Python's rule |
| PythonScopes.UnresolvedExactly | tools/refactor_audit/undefined_names.py:112-117 | a load Python cannot resolve goes unreported iff it stands in the target of a comprehension clause, or a scope on its chain declares the name or stores to it in a `match` |
| PythonScopes.NeverMissed | tools/refactor_audit/undefined_names.py:29-30 | without causes a load Python cannot resolve is reported iff it stands outside clause targets |
| PythonScopes.MovedDefReported | tools/refactor_audit/undefined_names.py:144-251 | a function moved to a module: a name that neither its scopes nor the module bind is reported, unless the load stands in a clause target or a scope around it declares the name or stores to it in a `match` |
| ScopeExamples.GlobalMissed | tools/refactor_audit/undefined_names.py:112-113 | in any module that does not bind it, the name a function declares global and reads is missed |
| ScopeExamples.StrayGoesUnreported | tools/refactor_audit/undefined_names.py:112-113 | such a function alone in its module gives no finding at all |
| ScopeExamples.TargetGoesUnreported | tools/refactor_audit/undefined_names.py:180-184 | `[0 for q.x in z]` with `q` unbound gives no finding although Python cannot resolve the load |
| PythonScopes.MatchMissed | tools/refactor_audit/undefined_names.py:114-117 | a name that a `match` stores in nested scopes only is missed at module level |
| PythonScopes.UnseenInModule | tools/refactor_audit/undefined_names.py:73-125 | a name the module has only out of the analyser's sight resolves in Python and is reported wherever, outside clause targets, no scope around collects it |
| ClassScopes.ClassReportsExactly | tools/refactor_audit/undefined_names.py:196-209 | what a class reports, exactly: direct defs are denied every name the body binds, other statements are granted them |
| ClassScopes.FindingHasLoad | tools/refactor_audit/undefined_names.py:144-209 | every finding, in classes too, comes from a load of that name on that line |
| ClassScopes.MethodReported | tools/refactor_audit/undefined_names.py:196-209 | on the only load of a name on its line, below a direct def of a class, the module's findings hold it iff it is no builtin, no scope inside the def collects it, and the module does not or the class body does |
| ClassScopes.MethodVerdict | tools/refactor_audit/undefined_names.py:196-209 | against the same code outside the class: reported too exactly for an outer name the class body rebinds, while Python resolves both alike |
| ClassScopes.HeaderFalsePositive | tools/refactor_audit/undefined_names.py:200-208 | in a direct def's header a name the class body binds is reported iff it is no builtin, although Python resolves it there |
| NameAnalyser.Analyser.CheckScope | tools/refactor_audit/undefined_names.py:144-193 | the findings list grows by exactly the reports specified for the children |
| NameAnalyser.Analyser.CheckNode | tools/refactor_audit/undefined_names.py:144-193 | the same for one child of any kind |
| NameAnalyser.Analyser.CheckClassBody | tools/refactor_audit/undefined_names.py:196-209 | the two passes over a class body, direct defs first, give the specified reports |
| NameAnalyser.Analyser.CheckGenerators | tools/refactor_audit/undefined_names.py:177-188 | visibility grows clause by clause and the findings are those specified for the clauses |
| NameAnalyser.CheckFile | tools/refactor_audit/undefined_names.py:234-251 | unparsable and star-importing files are skipped; otherwise every finding comes out once, and for class-free files the findings of every name without causes are exactly its loads outside clause targets that Python cannot resolve |
| Migrations.CrashResume | backend/migrations/registry.py:73-88 | from any schema, any crashes after any statements and a final complete start end like one clean start, abort included |
| Migrations.StepResumable | backend/migrations/registry.py:5-6 | every kind of step can be interrupted after any statement and replayed with the same outcome |
| Migrations.AppliesOnce | backend/migrations/registry.py:24-46 | an aborting statement changes nothing, an addition is there afterwards, and every statement but the carried override may run again to no effect |
| StatementEffects.AddColumnExactly | backend/migrations/registry.py:24-46 | without the table it fails, with the column it changes nothing, else every row gets the declared default and keeps every other cell, and the rest of the database is untouched |
| StatementEffects.CreateTableExactly | backend/migrations/registry.py:24-46 | an empty table with the listed columns where there was none, else nothing |
| StatementEffects.CreateIndexExactly | backend/migrations/registry.py:24-46 | one more index, on a table that exists |
| StatementEffects.RenameExactly | backend/migrations/steps.py:33-52 | the new column holds row by row what the old one held and no other cell changes |
| StatementEffects.HarvestExactly | backend/migrations/steps.py:514-531 | a harvest threshold of exactly 1 becomes 0 and no other cell changes |
| StatementEffects.TypedExactly | backend/migrations/steps.py:532-684 | the statements on partial closes, their index and channels change nothing else |
| StatementEffects.RunKeepsCells | backend/migrations/registry.py:73-88 | a value there before any part of a run is there after it, unless the rename or the harvest step names its column |
| StatementEffects.BootKeepsCells | backend/migrations/registry.py:73-88 | the same of a whole start after any crashes |
| StatementEffects.NewColumnHoldsDefault | backend/migrations/registry.py:24-46 | a completed run leaves the declared default in a column it is the first to add, in every row there was |
| StatementEffects.StartFillsDefault | backend/migrations/registry.py:73-88 | so does a completed start whose first pending step adds it |
| Migrations.StampNeverDecreases | backend/migrations/registry.py:66-88 | no schedule of crashes lowers the stamp |
| Migrations.HeadReached | backend/migrations/registry.py:73-88 | a start that completes has stamped every step |
| Stamps.StampMeansApplied | backend/migrations/registry.py:73-88 | in every state crashes can leave, stamp n means steps 1..n hold: all tables, columns and plain indexes exist, and the data is as each special step leaves it; step 30's own index is the matter of the rows on `IndexGap` |
| IndexGap.IndexMissingExactly | backend/migrations/steps.py:628-631 | whatever the crashes, at stamp 30 the index is there, and at stamp 31 it is missing iff the last crash that executed anything struck right after the DROP |
| Stamps.CompletedRunIsVerified | backend/migrations/registry.py:98-112 | after any crashes, a start that completes passes the critical-schema check |
| MergeReplay.MergeResumesExactly | backend/migrations/steps.py:634-684 | with the merge anywhere in a list of steps, every crash schedule resumes to the clean outcome iff no override sits deep |
| Transactions.TransactionalResumes | backend/src/db/database.py:167-246 | under the application's transaction every database resumes from any crashes to the clean outcome, the merge included, and no crash moves the stamp |
| Transactions.TransactionalStamp | backend/src/db/database.py:218-246 | the stamp keeps that meaning in every state those crashes leave |
| IndexGap.TxIndexMissingExactly | backend/src/db/database.py:167-193 | under the application's transaction it goes missing only on a database already stamped 31, iff the last crash that executed anything died after that one statement |
| MigrationRunner.Connection.Run | backend/migrations/registry.py:73-88 | the loop ends in exactly the database and verdict of the specified run; on success every step is stamped, and the stamp never falls |
| Registry.RegistryIsListed | backend/migrations/steps.py:56-736 | the 47 steps are numbered 1..47 in order, all but steps 1, 29, 30, 32 and 33 only add, and the critical columns are among what they add |
| Registry.RegistryResumes | backend/migrations/steps.py:56-736 | crash-resume for the registry, unless step 33 is pending and an override sits deep |
| Registry.RegistryResumesExactly | backend/migrations/steps.py:634-684 | that condition is exact for every database whose run gets as far as step 33 |
| Registry.RegistryStamp | backend/migrations/registry.py:73-88 | from any unstamped database, through any crashes, stamp n means steps 1..n of the registry are applied in full, step 30's index included unless the last effective crash struck right after step 32 dropped it |
| Registry.RegistryTransactionalStamp | backend/src/db/database.py:218-246 | the same under the application's transaction, where the one exception needs a database already stamped 31 |
| Registry.RegistryIsVerified | backend/migrations/registry.py:17-21 | over the base schema, a registry start that completes passes the critical-schema check |
| Registry.RegistryKeepsFlag | backend/migrations/steps.py:33-52 | every unstamped install comes out with its live-execution switch: the new column's value, else the old column's, else off |
| Registry.RegistryTakesSignals | backend/migrations/steps.py:102-107 | upgraded from stamp 4, through any crashes, `accept_tg_signals` comes out on in every settings row |
| LegacyUpgrade.FlagSurvives | backend/migrations/steps.py:33-59 | the same for any list of steps that renames first and later adds the column switched off, through any crashes |
| LegacyUpgrade.AddingFirstLosesFlag | backend/migrations/steps.py:34-37 | run the other way round, the two steps leave an old install's switch off |
| LegacyUpgrade.IndexesAlwaysBuild | backend/migrations/steps.py:532-632 | step 30's unique index builds on any rows, step 32's after it, and the rows are the relabelled ones |
| PartialCloses.RelabelDuplicates | backend/migrations/steps.py:569-577 | the UPDATE gives the same table whatever mixture of old and relabelled rows each row's subquery reads |
| PartialCloses.RelabelInPlace | backend/migrations/steps.py:569-577 | and in one pass in place, in any order of visiting the rows |
| PartialCloses.TestIsStable | backend/migrations/steps.py:565-577 | the subquery's answer for an unvisited row never depends on how far the UPDATE has got |
| PartialCloses.NothingLost | backend/migrations/steps.py:551-563 | no row, lot, price or pnl changes, and a label changes iff it is a take-profit label that is not its group's lowest id |
| PartialCloses.OneSurvivor | backend/migrations/steps.py:569-580 | every take-profit label survives, on its group's lowest id, and no two rows share one |
| PartialCloses.IsTpExactly | backend/migrations/steps.py:569-577 | the take-profit labels are TP and one or two digits |
| PartialCloses.RelabelExactly | backend/migrations/steps.py:569-577 | a repeat's new label is its old one, `_dup` and digits that spell the row's own id; nothing else of the row changes |
| PartialCloses.DecimalRoundTrip | backend/migrations/steps.py:569-577 | the text of an id is digits that read back as the id, so different ids give different labels |
| PartialCloses.UniqueExactly | backend/migrations/steps.py:578-580 | an index can be built iff no two take-profit rows agree on its key |
| PartialCloses.RelabelledIsUnique | backend/migrations/steps.py:578-580 | afterwards the unique index can be built |
| PartialCloses.RelabelIdempotent | backend/migrations/steps.py:569-577 | the UPDATE changes nothing when run again |
| ChannelMerge.ReplayExactly | backend/migrations/steps.py:666-683 | replaying the override UPDATE any number of times is invisible in the merged table iff no override sits two or more wrappings from a surviving row |
| ChannelMerge.CarryOrderExactly | backend/migrations/steps.py:676-681 | visiting the rows one by one, each tested on the table so far, leaves the same merged table for every order iff no override sits deep |
| ChannelMerge.MergedIsStable | backend/migrations/steps.py:666-683 | once merged, all three statements change nothing |
| ChannelMerge.WrapRoundTrip | backend/migrations/steps.py:666-671 | the nested REPLACE undoes the wrapping iff the name contains neither a closing bracket nor the prefix |
| ChannelMerge.MergedPause | backend/migrations/steps.py:655-683 | a channel whose twin alone unwraps to it comes out unpaused iff its name is plain, a bracket keeps the pause in any case, and it gains the twin's override only without one of its own |
| ChannelMerge.MergedExactly | backend/migrations/steps.py:666-683 | any table, row by row: the unwrapped rows stay; one comes out unpaused iff some wrapped row unwraps to its name and keeps its pause otherwise; it gains an override iff it had none and its twin has one |
| ChannelMerge.IsWrappedExactly | backend/migrations/steps.py:666-671 | a wrapped name is the prefix in either case, anything, and a closing bracket |
| Backfills.AppliedExactlyOnce | backend/migrations/backfills.py:94-204 | over any life with `app_config`, each marker-gated correction is applied once, by the first start, to what the user had made of the tables by then, or never if its marker was there from the start |
| Backfills.EditStays | backend/migrations/backfills.py:118-141 | whatever the user sets after the first start stays, however often the app starts |
| Backfills.FixesExactly | backend/migrations/backfills.py:118-204 | the corrections value by value: instant entry on for `gd2` channels that had it off, every level times ten, nothing else |
| Backfills.OnceNeedsConfig | backend/migrations/backfills.py:94-115 | a second start leaves the ladders alone iff `app_config` exists or there is nothing to scale |
| Backfills.CorrectedExactly | backend/migrations/backfills.py:34-91 | one start's name correction: the old engine name becomes the new one, and an `instant:` prefix in either case goes |
| Backfills.NamesSettle | backend/migrations/backfills.py:74-91 | a source name settles on its bare, rebranded form after one start per prefix and one more |
| Backfills.OneBootSettles | backend/migrations/backfills.py:207-220 | one start is enough exactly when at most one correction is due |
| Backfills.Connection.Gd2InstantEntry | backend/migrations/backfills.py:118-141 | the state becomes the specified once-only correction of the old state |
| Backfills.Connection.AnchorTpPipsUnits | backend/migrations/backfills.py:180-204 | eight column updates and the marker amount to scaling every non-zero level by ten, once |
| Backfills.Connection.RunBackfills | backend/migrations/backfills.py:253-255 | the two gated backfills in their order make one boot step |
| CallLock.MutualExclusion | mt5_bridge.py:1073-1177 | in every state of every interleaving at most one thread is inside a native call, and it holds the lock, health checks with a timed-out acquire included |
| CallLock.WedgedForEver | mt5_bridge.py:141-172 | a thread waiting inside `_connect` or `_disconnect` for the lock it holds waits for ever, and nobody makes a native call again |
| CallLock.FreedUnlessWedged | mt5_bridge.py:1073-1357 | the lock can be given back exactly when no thread is wedged |
| CallLock.ReconnectWedges | mt5_bridge.py:1290-1313 | whenever the lock is free, one POST `/reconnect` is enough to wedge the bridge |
| CallLock.WedgesExactly | mt5_bridge.py:204-313 | served by itself with the connection as found, a request can wedge its thread iff it disconnects, or it makes sure of a connection that is down and for which credentials are known |
| CallLock.NeverWedged | mt5_bridge.py:1073-1357 | in every interleaving in which the connection is never down while credentials are known and neither `/reconnect` nor `/credentials` is posted, no thread is ever wedged |
| Stops.SentKeepsDistance | mt5_bridge.py:720-734 | any level sent keeps the broker's minimum distance after clamping and both roundings, on either side, when a point is at least 0.005 |
| Stops.PlaceKeepsDistance | mt5_bridge.py:720-760 | stop and target of a new order, each against the quote it is clamped against |
| Stops.ModifyKeepsDistance | mt5_bridge.py:901-937 | every level supplied to a modify request is sent and keeps the distance, and otherwise the position's own level stays |
| Stops.SentExactly | mt5_bridge.py:915-937 | a level is sent iff it is asked for, not 0 and not padded out to exactly 0 |
| Stops.PlaceExactly | mt5_bridge.py:720-760 | what a new order carries, in prices: a level far enough from its quote goes out as asked, rounded; a nearer one is replaced by the rounded limit |
| Stops.ModifyExactly | mt5_bridge.py:901-937 | the same for a modify request against the closing price, and a level not supplied stays |
| Stops.MinDistExactly | mt5_bridge.py:720-725 | the limit: one point more than the larger of stops and freeze level, none without either |
| Stops.Round2Exactly | mt5_bridge.py:726-734 | rounding to two places goes to the nearest cent, between two to the even one |
| Stops.MovedNoFurther | mt5_bridge.py:720-734 | a level that is sent lies no further from the one asked for than its limit does, but for half a cent |
| Stops.ReclampIsStable | mt5_bridge.py:720-760 | sending a sent level again at the same quote changes nothing |
| Stops.DistanceExactly | mt5_bridge.py:720-734 | for a broker that declares a minimum, on either side every level is legal iff a point is at least half a cent |
| OrderSend.AtMostOneDeal | mt5_bridge.py:740-783 | if codes 10004, 10018 and 10030 mean nothing was executed, one call executes at most one deal |
| OrderSend.DealsExactly | mt5_bridge.py:762-783 | the deals of a call are those of its last send |
| OrderSend.ResendsOnlyWhenSafe | mt5_bridge.py:762-783 | it sends again only after one of those codes, tries each mode once, and stops at the first other reply |
| OrderSend.ReportIsTruthful | mt5_bridge.py:762-819 | success iff the last reply was DONE, and then exactly one deal was executed; unknown iff the reply was lost; a rejection with one of those codes means no deal |
| OrderSend.HiddenDealExactly | mt5_bridge.py:762-822 | a deal is reported as neither filled nor unknown iff the last send executed one and raised, or answered with a code that is neither DONE nor one of the three |
| OrderSend.DealsAreHidden | mt5_bridge.py:782-822 | both cases occur: a broker that raises and one that answers 10010 for a partial fill |
| OrderSend.NeverHiddenExactly | mt5_bridge.py:762-822 | no call hides a deal iff the broker never executes one behind such a reply |
| OrderSend.Broker.SendUnderEachMode | mt5_bridge.py:740-783 | the requests sent are the first ones in mode order, alike but for the mode, and the last reply and the deals are those specified |
| OrderSend.Broker.PlaceOrder | mt5_bridge.py:660-822 | a failed pre-flight check sends nothing; otherwise the clamped request is sent under the modes and classified, with at most one deal |
| OrderSend.RequestExactly | mt5_bridge.py:740-760 | the request: a BUY at the ask, a SELL at the bid, with those levels |
| OrderSend.PreflightExactly | mt5_bridge.py:660-719 | an order goes out iff the terminal is connected and answers, the symbol can be opened and trading is allowed; 10027 means only the last fails |
| Candles.FetchIsComplete | mt5_bridge.py:492-517 | for any clock shift and a tick up to one bar old, every bar opening in the window is returned and none more than one bar and the staleness outside it |
| Candles.CompleteExactly | mt5_bridge.py:492-517 | every bar of every window is returned iff tick and local clock are within one bar of each other |
| Candles.ReachesBack | mt5_bridge.py:505-506 | the number of bars asked for reaches back to the start of the window |
| Candles.SelectedExactly | mt5_bridge.py:509-517 | a bar is selected iff it was fetched and its corrected time lies in the widened window |
| Candles.ConvertedExactly | mt5_bridge.py:509-517 | a candle carries its bar's price and its true opening time plus the tick's staleness, cut to whole seconds |
| Candles.SelectedInOrder | mt5_bridge.py:509-517 | the answer keeps the order in which the terminal returned the bars |
| Candles.CountExactly | mt5_bridge.py:505-506 | five bars more than fit between the start and now, five at least |
| Candles.GetCandlesRange | mt5_bridge.py:471-517 | the loop returns the selected bars in order, converted |
| ExitPolicy.Simulate | tools/exit_policy_lab.py:123-149 | the loop returns the R of the specified exit |
| ExitPolicy.ExitExactly | tools/exit_policy_lab.py:123-149 | the exit without walking: the first candle that touches the stop then in force or the target decides, stop before target, else the last close |
| TradePrices.BuyExactly | tools/exit_policy_lab.py:123-149 | a BUY in prices: while lows stay above the stop in force and highs below entry plus target it runs on; the first candle to leave stops it at -1, scratches it at 0 or hits at target over stop; else the last close counts |
| TradePrices.BuyOutcome | tools/exit_policy_lab.py:123-149 | it hits iff the first candle to leave stays clear of the stop and its high reaches the target, and is stopped iff its low reaches the original stop before any breakeven move |
| TradePrices.SellByReflection | tools/exit_policy_lab.py:123-149 | a SELL ends as the BUY whose prices are reflected about the entry |
| ExitPolicy.BreakevenKeepsOrScratches | tools/exit_policy_lab.py:123-149 | a breakeven move leaves a trade's R exactly as it was or makes it 0 |
| ExitPolicy.BreakevenExactly | tools/exit_policy_lab.py:123-149 | that holds of a stop distance iff it is positive |
| ExitPolicy.Bounded | tools/exit_policy_lab.py:123-149 | R lies in [-1, target/stop], is -1 exactly on a stop-out and target/stop exactly on a hit |
| ExitPolicy.MirrorSymmetric | tools/exit_policy_lab.py:123-149 | reflecting prices about the entry and swapping BUY and SELL changes nothing |
| ExitPolicy.TighterStopsOut | tools/exit_policy_lab.py:123-149 | a stop-out at a wider stop is one at every tighter stop |
| ExitPolicy.NearerTargetHit | tools/exit_policy_lab.py:123-149 | a hit at a wider target is one at every nearer target |
| RiskReplay.Replay | tools/risk_replay.py:214-239 | final balance, per-day totals, refusals and largest drawdown are those of the trade-by-trade outcomes |
| RiskReplay.Conservation | tools/risk_replay.py:224-239 | final minus start is the sum over the days |
| RiskReplay.RefusedExactly | tools/risk_replay.py:203-211 | a trade is refused iff its day has by then lost s% of the balance it began with, else it makes R times p% of the current balance |
| RiskReplay.DailyFloor | tools/risk_replay.py:196-211 | with a daily stop and bounded losses, no balance falls below the day's opening less the stop less one worst trade |
| RiskReplay.RefusedForTheDay | tools/risk_replay.py:203-211 | once one trade of a day is refused, every later trade of that day is, and the balance stays |
| RiskReplay.ActualReproducesPnl | tools/risk_replay.py:173-193 | the actual policy reproduces the summed realised profit and loss |
| RiskReplay.CompoundGrowth | tools/risk_replay.py:196-211 | fixed-fractional replay without a daily stop is the start times a product of per-trade factors |
| RiskReplay.OrderDoesNotMatter | tools/risk_replay.py:196-239 | so permuting the trades does not change where it ends |
| RiskReplay.ScalesWithStart | tools/risk_replay.py:196-239 | fixed-fractional replay, daily stop or not, scales with the starting balance |
| Reachability.Resolve | tools/refactor_audit/orphan_modules.py:124-138 | an imported name resolves to its longest existing prefix, or to nothing when it has none |
| Reachability.BuildGraph | tools/refactor_audit/orphan_modules.py:124-138 | every module's edges are the longest prefixes of what it imports |
| Reachability.Reachable | tools/refactor_audit/orphan_modules.py:147-163 | the worklist ends with the least set holding the entrypoints and closed under imports and ancestor packages |
| Reachability.LeastIsReached | tools/refactor_audit/orphan_modules.py:141-163 | a module is in that set iff a chain of imports and ancestor steps leads to it |
| Reachability.LongestPrefixSuffices | tools/refactor_audit/orphan_modules.py:124-163 | longest-prefix edges with ancestors reach what an edge to every existing prefix would |
| Reachability.FindOrphans | tools/refactor_audit/orphan_modules.py:170-200 | fails closed on a missing entrypoint; otherwise reports exactly the modules that are no package init and that no chain reaches |
| Reachability.CheckExit | tools/refactor_audit/orphan_modules.py:254-274 | the check exits 0 iff the allowlist is today's orphans, no more and no fewer |
| KeyedSort.SortErasesOrder | frontend/components/render_cache.py:80-120 | lists with one item per key sort to the same list iff they hold the same items |
| RenderCache.CanonicalExactly | frontend/components/render_cache.py:80-120 | canonical forms are equal iff the payloads agree up to mapping and set order and list or tuple |
| RenderCache.SkipIsFresh | frontend/components/render_cache.py:140-189 | whenever `changed` answers False, the section on screen equals a fresh render of the current payload |
| RenderCache.GatedAgreesWithRebuilding | frontend/components/render_cache.py:140-189 | over any life of a page the gated screen shows everything always rebuilding would, with the same data |
| RenderCache.PagesCoincideExactly | frontend/components/render_cache.py:140-189 | and a section more iff that section's last tick was skipped although its render would have raised |
| RenderCache.ForgettingIsNeeded | frontend/components/render_cache.py:184-186 | after any life of a page, a failed render is followed by a render of the same payload iff it was forgotten, else by a skip over an empty section |
| RenderCache.SectionCache.Changed | frontend/components/render_cache.py:155-182 | answers and remembers as specified: off or unreadable renders, equal digests skip |
| RenderCache.ChangedExactly | frontend/components/render_cache.py:155-182 | it answers False iff the cache is on, the payload reads and the remembered digest is its own; what is remembered in each case |
| Normaliser.PublicIdempotent | tools/refactor_audit/ast_normalise.py:24-28 | stripping the private prefix twice is stripping it once |
| Normaliser.StrippedExactly | tools/refactor_audit/ast_normalise.py:24-28 | the name without its leading underscores, no more and no fewer |
| Normaliser.PublicExactly | tools/refactor_audit/ast_normalise.py:24-28 | a name of underscores alone or with two in front stays, any other loses a leading one |
| Normaliser.ReceiverExactly | tools/refactor_audit/ast_normalise.py:32-38 | an attribute becomes a bare name iff it is read off `self`, `ctx` or `context`, a private prefix dropped |
| Normaliser.ParameterMatches | tools/refactor_audit/ast_normalise.py:24-28 | an attribute reads like its parameter iff it does not start with two underscores |
| Normaliser.CollapsedIdempotent | tools/refactor_audit/ast_normalise.py:49-62 | collapsing whitespace leaves nothing to collapse |
| Normaliser.SplitExactly | tools/refactor_audit/ast_normalise.py:49-62 | the words are the longest pieces without whitespace, in order |
| Normaliser.CollapsedKeepsWords | tools/refactor_audit/ast_normalise.py:49-62 | collapsing keeps exactly the words |
| Normaliser.NormalIdempotent | tools/refactor_audit/ast_normalise.py:31-70 | visiting a tree twice is visiting it once |
| Normaliser.NormalExactly | tools/refactor_audit/ast_normalise.py:31-70 | two trees normalise alike iff they read alike: node by node the same kinds, public names and words |
| Normaliser.CloneExactly | tools/refactor_audit/ast_normalise.py:73-88 | the copy that is compared loses its name and the docstring that may open the body, and nothing else |
| Normaliser.ExtractionIsInvisible | tools/refactor_audit/ast_normalise.py:4-9 | a method body and its extraction normalise to the same tree |
| Normaliser.ShapeKept | tools/refactor_audit/ast_normalise.py:31-104 | the visitor never adds, drops or reorders a statement |
| Normaliser.ShapeIsEveryStatement | tools/refactor_audit/ast_normalise.py:95-104 | the shape holds the type of every statement, as often as it occurs |
| Normaliser.StatementShape | tools/refactor_audit/ast_normalise.py:95-104 | the walk over the normalised function gives its shape, and with it every statement of the docstring-free body |
| Normaliser.DroppedStatementShows | tools/refactor_audit/ast_normalise.py:95-101 | after an extraction that may leave out statements anywhere, shapes agree iff none was left out, and then the trees agree too |

## Left out

- SQL is modelled by the statement kinds the steps use: rows of partial closes and channels are typed records, other tables hold values by column, and NOT NULL, key and column-reference errors are not modelled.
- Transactions.TransactionalResumes: the transaction follows Python's sqlite3 rule that only row-changing statements open one; the singleton inserts and backfills that follow the steps in the same transaction are not part of the start.
- The base schema is an assumption (`Registry.BaseSchema`); `schema_sql.py` is not listed.
- ChannelMerge.ReplayExactly: like every result on the engine it takes the second UPDATE to read the table as it was before the statement; ChannelMerge.CarryOrderExactly says when that makes no difference.
- Stamps.StampMeansApplied: says nothing of step 30's index, which no list of steps in general guarantees; Registry.RegistryStamp states its exact fate.
- Backfills.AppliedExactlyOnce: each backfill pass is taken to be committed whole, a crash inside one is not modelled.
- The channel-rename heal and the order-type, strategy-id and DPM backfills: the first needs a helper outside the model, the others only repeat the shape of the ones modelled.
- Python syntax is reduced to the node kinds that bind, load or nest; type parameters are not among them, and whether a file star-imports is an input.
- PythonScopes.JudgedExactly: speaks of scopes, not of execution order; a name bound later than it is read, or unbound again, counts as bound, as in the static rule.
- PythonScopes.ModuleExact: class-free modules only; with classes the project states ClassScopes.ClassReportsExactly and ClassScopes.MethodVerdict.
- ClassScopes.ClassReportsExactly: states the rule for classes whose own statements contain no further class; nested classes only enter through the analyser's methods.
- CallLock.MutualExclusion: Win32 clicks, credential handling and socket-level concurrency are outside the protocol, and a native call is one step in and one step out.
- OrderSend.Broker.PlaceOrder: volume, magic number, comments, error texts and the AutoTrading auto-click are left out; only the answer's kind and code are kept.
- Candles.GetCandlesRange: connection failures, an unknown timeframe, a missing tick and all fields but time and price are left out.
- Prices and money are `real`; of floating point only the bridge's two-decimal rounding is modelled.
- RenderCache.SkipIsFresh: `repr` and the digest enter as injective functions and keys as their `str` text; the hash itself is not modelled.
- Reachability.FindOrphans: the order of the report by size, and reading files and imports from disk, are left out.
- Normaliser.StatementShape: parsing and unparsing the function before the visit are taken to return the same tree.
- HTTP routing, pages, dialogs, theme, the watchdog, bootstrap confidence intervals and report formatting: input, output or presentation.
