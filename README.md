# goal-manager: the daily carryover and the goal routes, in Dafny

goal-manager is a personal goal tracker. A goal has a cadence (daily, weekly
or monthly), a target and statistics: the current streak, the longest streak
and total completions. Each daily goal gets one *instance* per day, and the
instance accumulates progress towards the target.

This project models three pieces of the backend:

- **The carryover service** (`backend/services/carryover.js`). Once at start-up
  and then every night, it looks at yesterday's unfinished instances of active
  daily goals.
  - For a recurring goal it replaces today's instance with one whose target is
    the base target plus the remainder × multiplier, rounded up and capped. It
    then breaks the goal's streak.
  - It then gives every active daily goal still without an instance today a
    fresh one at its base target.
- **The goal routes** (`backend/routes/goals.js`):
  - recording progress, which moves the completion flag, the three statistics
    and the 7-day streak achievement;
  - creating a goal with its defaults and today's instance;
  - editing a goal, including propagating its target to today's instance;
  - soft delete;
  - the two listings that show active goals only.
- **The CSV export** (`backend/routes/analytics.js`): which rows each export
  type selects, and the conversion of those rows to CSV text.

The store (`backend/database.js`) is the class `Store.Db`. It holds four
tables: goals, goal_instances (keyed by goal and day, per its UNIQUE
constraint), progress_entries and achievements. `Db.Valid()` is the store
invariant:
- every instance, entry and achievement refers to an existing row;
- ids lie below the AUTOINCREMENT counter;
- a carried instance records the day before its own;
- 0 ≤ streak ≤ longest ≤ completions.

Each handler and each service method is an imperative method over `Db`. It is
proved to leave the tables equal to a function of the old tables. The
properties are then proved as lemmas about those functions:
- a reconciliation run is idempotent;
- a missed day restarts the streak;
- the 7-day award is given exactly once per streak crossing;
- a CSV text with no line breaks in its data splits back into header and rows;
- integer fields read back as the same integer.

Store failures during a carryover run are a parameter (`Carryover.Faults`):
the select fails, or the n-th write of a phase throws. `Carryover.RunOutcome`
states what each kind of failure leaves behind.

Behaviour of the code that the model keeps as written:
- **The remainder is not clamped.** An instance that overshot its target
  yields a negative carry-over, which *lowers* today's target
  (`Carryover.OvershootLowersTarget`).
- **A write error ends the run.** A failing write in the carryover loop ends
  the whole run at that write: later goals are not carried over and nothing
  is back-filled (`Carryover.RunOutcome`). When the error hits the streak
  update, that goal keeps its new instance but not its reset streak.
- **Non-recurring goals are back-filled.** A non-recurring daily goal left
  unfinished is skipped by the carryover loop. The back-fill then gives it a
  fresh instance at its base target.
- **Nothing stops a second run.** A second run on the same day (start-up,
  then the manual trigger) with no request in between changes nothing
  (`Carryover.RerunChangesNothing`). The run only looks at yesterday's rows,
  though: once progress has been recorded for today, a second run carries
  the same goals again. It replaces today's instance, so the recorded
  progress is lost, and it zeroes the streak again
  (`GoalRoutes.RerunAfterProgressRecarries`).
- **An edit switches carryover off.** The application's edit dialog sends
  no multiplier or cap, and the PUT writes NULL into both columns. In the
  carryover arithmetic NULL acts as 0, so such a goal carries nothing over;
  its instance is still replaced and its streak still broken
  (`GoalRoutes.EditWithoutSettingsCarriesNothing`).
- **7 is the only milestone.** It is awarded whenever the streak becomes
  exactly 7.
- **A negative progress value can re-count a completion.** It can clear
  `is_completed`, so the same day can be completed twice and counted twice
  (`GoalRoutes.NegativeValueRecounts`).
- **The CSV quoting is not RFC 4180.** A field is enclosed in quotes only
  when it holds a comma. Inner quotes are not doubled and line breaks are
  not enclosed (`Analytics.QuotesNotDoubled`,
  `Analytics.LineBreakNotEnclosed`, `Analytics.LineBreakSplitsRow`).

Files:
- `wrappers.dfy`: Option.
- `store.dfy`: rows, CHECK constraints, the store invariant, `Db`.
- `carryover.dfy`: the carryover arithmetic, the reconciliation on values,
  and the `CarryoverService` class.
- `goals.dfy`: the goal routes.
- `analytics.dfy`: the export.

## Model

| member | source | states |
|---|---|---|
| Store.ParseCadence | backend/database.js:46 | the CHECK on `type` admits exactly daily, weekly and monthly; an admitted text is the name of the parsed cadence |
| Store.ParseTargetKind | backend/database.js:47 | the CHECK on `target_type` admits exactly quantity and quality |
| Store.ParsePriority | backend/database.js:52 | the CHECK on `priority` admits exactly low, medium and high |
| Store.FreshInstance | backend/database.js:70-73 | reference definition of the row an INSERT with only a target gets (current value 0, not completed, not carried over); used by `Carryover.AddFreshAt`, `GoalRoutes.RecordEffects` and `GoalRoutes.CreateGoal` |
| Store.WriteInstanceKeepsConsistent | backend/database.js:65-80 | writing an instance of an existing goal, with a carried-from day the day before its own, keeps the store invariant |
| Store.AppendEntryKeepsConsistent | backend/database.js:83-92 | appending a progress entry of an existing instance keeps the store invariant |
| Store.AppendAchievementKeepsConsistent | backend/database.js:95-105 | appending an achievement of an existing goal keeps the store invariant |
| Carryover.CeilDiv | backend/services/carryover.js:59 | the result is the ceiling: (r-1)·d < x ≤ r·d |
| Carryover.RawCarryover | backend/services/carryover.js:58-59 | the carry-over is ceil(remaining × multiplier), with the remaining amount not clamped |
| Carryover.CappedCarryover | backend/services/carryover.js:60 | the capped amount is the smaller of the cap and the raw amount |
| Carryover.NewTarget | backend/services/carryover.js:63 | today's target is at most the base target plus the cap, and exceeds the base by at most the raw carry-over |
| Carryover.CarryoverExamples | backend/services/carryover.js:58-63 | with the default multiplier 1.1 and cap 5, target 10 with 4 done gives 15 (capped); multiplier 1 with 7 done gives 13; a finished instance gives 10 |
| Carryover.CarryoverCoversRemaining | backend/services/carryover.js:58-60 | with a multiplier of at least 1 and a non-negative remainder, the carry-over is at least the smaller of the remainder and the cap |
| Carryover.UnitMultiplierCarriesRemainder | backend/services/carryover.js:59 | a multiplier of exactly 1 carries the remainder unchanged |
| Carryover.OvershootLowersTarget | backend/services/carryover.js:58-63 | an instance that overshot its target gives a non-positive carry-over and a target no higher than the base |
| Carryover.EligibleGoals | backend/services/carryover.js:39-52 | reference definition of the carryover SELECT (active, daily, an incomplete instance yesterday); `CarryoverService.SelectIncomplete` is proved to return exactly these goals |
| Carryover.CarrySet | backend/services/carryover.js:54-55 | the goals carried over are exactly the selected ones that are recurring |
| Carryover.CarriedInstance | backend/services/carryover.js:66-70 | the replacing instance has the new target, no progress, is not completed and is carried from yesterday |
| Carryover.NullSettingsCarryNothing | backend/services/carryover.js:58-63 | in the joined row (`RowOf`) a NULL multiplier or cap enters the arithmetic as 0, so with both NULL the carry-over is 0 and today's target is the base target |
| Carryover.CarryIntoAt | backend/services/carryover.js:66-70 | about `CarryInto` and `CarriedRows`: INSERT OR REPLACE writes exactly the carried goals' rows for today and leaves every other instance as it was |
| Carryover.ResetStreaksAt | backend/services/carryover.js:73-77 | about `ResetStreaks`: the streak reset zeroes the streaks of exactly the given goals and changes no other field or goal |
| Carryover.MissingGoals | backend/services/carryover.js:96-101 | reference definition of the back-fill SELECT (active daily goals with no instance today); `CarryoverService.SelectMissing` is proved to return exactly these and `Carryover.ReconcileLeavesNothingMissing` that a clean run empties it |
| Carryover.AddFreshAt | backend/services/carryover.js:103-107 | about `AddFresh`: the back-fill inserts a base-target instance for today for exactly the given goals and touches no other instance |
| Carryover.FillMissing | backend/services/carryover.js:91-114 | after a full back-fill every active daily goal has an instance today; every new row is a fresh base-target row for a goal that lacked one; old rows are untouched |
| Carryover.CarryKeepsConsistent | backend/services/carryover.js:54-80 | carrying over selected goals and breaking their streaks keeps the store invariant |
| Carryover.AddFreshKeepsConsistent | backend/services/carryover.js:103-107 | the back-fill keeps the store invariant |
| Carryover.ReconciledInstancesAt | backend/services/carryover.js:28-114 | after a clean run, carried goals have their carried instance today; other existing rows are unchanged; back-filled rows are fresh; only today's rows are new; every active daily goal has today's row |
| Carryover.ReconcileBreaksOnlyCarriedStreaks | backend/services/carryover.js:54-77 | a clean run zeroes the streak of exactly the recurring selected goals and changes nothing else about any goal |
| Carryover.SelectionDependsOnYesterday | backend/services/carryover.js:39-52 | the selection and its rows depend only on yesterday's instances and on goal fields other than the streak |
| Carryover.ReconcileCarriedAt | backend/services/carryover.js:63-70 | after a clean run a carried goal's instance today is the one computed from yesterday's row |
| Carryover.ReconcileKeepsYesterday | backend/services/carryover.js:66-70 | a run leaves yesterday's instances exactly as they were |
| Carryover.CarryIntoNoop | backend/services/carryover.js:66-70 | carrying over goals whose row today already is the carried instance changes nothing |
| Carryover.ResetTwice | backend/services/carryover.js:73-77 | breaking the same streaks twice is the same as once |
| Carryover.ReconcileLeavesNothingMissing | backend/services/carryover.js:82-107 | after a clean run no active daily goal lacks today's instance |
| Carryover.ReconcileIdempotent | backend/services/carryover.js:28-114 | a second clean run on the same day leaves goals and instances exactly as the first left them |
| Carryover.CleanRunReconciles | backend/services/carryover.js:28-89 | the outcome of a run without store failures is the reconciled goals and instances |
| Carryover.RerunChangesNothing | backend/services/carryover.js:11-18 | the start-up run followed by another run the same day (the scheduled or manual one), with no request in between, changes nothing, streaks included |
| Carryover.RerunRecarries | backend/services/carryover.js:39-77 | a run on tables whose goal settings and yesterday's rows are unchanged carries each carried goal again: today's row becomes the instance computed from yesterday and the streak is zeroed, whatever today's row and the statistics had become |
| Carryover.CronTask.constructor | backend/services/carryover.js:11 | scheduling creates a running task |
| Carryover.CronTask.Stop | backend/services/carryover.js:23 | stopping leaves the task unscheduled |
| Carryover.CarryoverService.constructor | backend/services/carryover.js:4-7 | the service holds the store and no scheduled task |
| Carryover.CarryoverService.Start | backend/services/carryover.js:9-19 | schedules a fresh task and runs once at once; the tables end as RunOutcome says and the store invariant holds |
| Carryover.CarryoverService.Stop | backend/services/carryover.js:21-26 | a scheduled task is stopped; with none, nothing happens |
| Carryover.CarryoverService.SelectIncomplete | backend/services/carryover.js:39-52 | the rows name exactly the selected goals, once each; each row is that goal's joined row from yesterday; the recurring rows are exactly the carry set |
| Carryover.CarryoverService.SelectMissing | backend/services/carryover.js:96-101 | the ids are exactly the goals needing an instance today, once each |
| Carryover.CarryoverService.ProcessCarryovers | backend/services/carryover.js:28-89 | the run ends in the state the predicate `RunOutcome` describes for the given store failures (all or a prefix of the carry set, then the back-fill unless a write failed), keeps the store invariant, and never fails to the caller |
| Carryover.CarryoverService.CarryRows | backend/services/carryover.js:54-80 | the loop writes the instance, then the streak, of each recurring row in order; it aborts exactly when the failing write lies among those writes, with the counts of carried and reset goals that write implies |
| Carryover.CarryoverService.CarryRow | backend/services/carryover.js:55-77 | one row: a non-recurring row is skipped; a recurring row's instance is replaced, then its streak zeroed, and a failing write stops before the other |
| Carryover.CarryoverService.CreateTodayInstances | backend/services/carryover.js:91-114 | the back-fill ends as the predicate `FillOutcome` says (nothing on a failed select, exactly as many inserts as precede a failing write, otherwise every missing goal), goals unchanged and the store invariant kept |
| Carryover.CarryoverService.InsertFresh | backend/services/carryover.js:103-110 | the insert loop adds a base-target instance for the ids in order until the failing write, and nothing else |
| Carryover.CarryoverService.TriggerCarryover | backend/services/carryover.js:117-119 | the manual trigger is exactly one run |
| GoalRoutes.Progressed | backend/routes/goals.js:138-139 | the instance's current value grows by the increment and it is completed iff the new value reaches its target |
| GoalRoutes.WithCompletion | backend/routes/goals.js:150-152 | a completion adds one to the streak and to total completions and raises the longest streak to the new streak if lower |
| GoalRoutes.Record | backend/routes/goals.js:113-166 | the call is a 404 iff the day has no instance and the goal does not exist; otherwise one entry is appended, goal ids are unchanged and every instance still has its goal |
| GoalRoutes.RecordEffects | backend/routes/goals.js:113-166 | about `Recorded` from `StartingInstance`: the day's instance (created at the base target if missing) gains the value; statistics move exactly on an incomplete-to-complete transition; the 7-day achievement is added exactly when that makes the streak 7; nothing else changes |
| GoalRoutes.RecordKeepsConsistent | backend/routes/goals.js:123-166 | a progress call keeps the store invariant |
| GoalRoutes.RecordProgress | backend/routes/goals.js:106-193 | answers 404 and writes nothing exactly when Record says so; otherwise 200, the tables are the recorded ones and the updated instance is returned |
| GoalRoutes.WriteProgress | backend/routes/goals.js:132-166 | the entry, instance, statistics and achievement writes in the route's order land on the tables `Recorded` gives |
| GoalRoutes.ApplyStreak | backend/routes/goals.js:148-166 | one call raises a streak by at most one, never lowers it, and awards the milestone iff the streak passes 7 |
| GoalRoutes.SevenDayAwardedOnce | backend/routes/goals.js:161-166 | over any run of progress calls a goal gets one 7-day award iff its streak passes from below 7 to 7 or more, and none otherwise |
| GoalRoutes.NegativeValueRecounts | backend/routes/goals.js:138-152 | +target, −target, +target on one day counts two completions and two streak steps |
| GoalRoutes.MissedDayRestartsStreak | backend/routes/goals.js:148-152 | after the nightly run has broken a missed goal's streak, completing today's carried instance brings the streak to exactly 1 |
| GoalRoutes.ReconciledLinked | backend/services/carryover.js:66-107 | the nightly run keeps every instance attached to an existing goal |
| GoalRoutes.ApplyKeepsSettings | backend/routes/goals.js:132-166 | a progress call for another day changes no goal setting and no row of the given day |
| GoalRoutes.RunKeepsSettings | backend/routes/goals.js:132-166 | a run of progress calls for other days changes no goal setting and no row of the given day |
| GoalRoutes.RerunAfterProgressRecarries | backend/services/carryover.js:54-77 | a second nightly run after progress was recorded today gives a carried goal back the instance the first run wrote (no progress) and zeroes its streak again |
| GoalRoutes.Admit | backend/routes/goals.js:55-70 | 400 iff the title or type is missing or empty; 500 iff a CHECK constraint rejects the type, target type or priority; otherwise the goal has the given fields, the defaults (quantity, 1, recurring, medium, 1.1, 5), a non-NULL multiplier and cap, is active and has zero statistics |
| GoalRoutes.CreateGoal | backend/routes/goals.js:53-103 | a refused request writes nothing; an admitted one is stored under the next id, and a daily goal also gets today's fresh instance |
| GoalRoutes.Edited | backend/routes/goals.js:210-216 | the edited columns take the new values, an omitted multiplier or cap becoming NULL; type, target type, recurrence and statistics are kept |
| GoalRoutes.UpdateGoal | backend/routes/goals.js:196-240 | an id that names no goal answers 200 and writes nothing, whatever the priority; for an existing goal an unknown priority answers 500 and writes nothing; otherwise the goal is edited and today's instance, if any, takes the new target with its progress kept |
| GoalRoutes.EditWithoutSettingsCarriesNothing | backend/routes/goals.js:206-216 | after an edit that leaves out the multiplier and the cap, the next carry of the goal gives a carry-over of 0 and today's target equal to the edited base target |
| GoalRoutes.SoftDeleted | backend/routes/goals.js:247-249 | the goal is marked inactive and kept, and no other goal changes |
| GoalRoutes.DeleteGoal | backend/routes/goals.js:243-256 | the goals table becomes the soft-deleted one and no other table changes |
| GoalRoutes.ActiveGoals | backend/routes/goals.js:7-13 | reference definition of the GET / filter (active goals); `GoalRoutes.ListGoals` is proved to list exactly these and `GoalRoutes.DeleteHidesOnlyThatGoal` relates it to a delete |
| GoalRoutes.TodayGoals | backend/routes/goals.js:26-43 | reference definition of the GET /today filter (active goals with an instance today); `GoalRoutes.TodayInstances` is proved to list exactly these and `GoalRoutes.DeleteHidesOnlyThatGoal` relates it to a delete |
| GoalRoutes.ListGoals | backend/routes/goals.js:5-19 | the listed ids are exactly the active goals, each once |
| GoalRoutes.TodayInstances | backend/routes/goals.js:22-50 | every listed row is today's instance of an active goal, every such goal is listed, and each goal once |
| GoalRoutes.DeleteHidesOnlyThatGoal | backend/routes/goals.js:243-256 | after a delete the goal leaves both listings while its row stays, and the listings otherwise are unchanged |
| Analytics.NatToString | backend/routes/analytics.js:215-220 | an integer's text is decimal digits with no leading zero |
| Analytics.IntRoundTrip | backend/routes/analytics.js:215-220 | an integer field written to the CSV reads back as the same integer |
| Analytics.Field | backend/routes/analytics.js:216-219 | a text without a comma is written as it is and one with a comma enclosed in quotes; an integer's text reads back as the integer; NULL is empty; the field holds a comma iff its text did |
| Analytics.Join | backend/routes/analytics.js:223 | every character of the joined text is the separator or comes from one of the parts, and there are at least as many characters as separators |
| Analytics.SplitJoin | backend/routes/analytics.js:223 | joining pieces without the separator and splitting at it gives back the pieces |
| Analytics.HeaderNames | backend/routes/analytics.js:214 | with no comma in a column name, the header line splits at its commas into exactly the column names of the first row |
| Analytics.ToCsv | backend/routes/analytics.js:213-223 | there is CSV text iff there are rows |
| Analytics.CsvLines | backend/routes/analytics.js:213-223 | with no line break in any name or text, the CSV text splits into the header of the first row's names followed by one line per row, in order |
| Analytics.LineFields | backend/routes/analytics.js:215-221 | with no comma in any text, a line splits at its commas into exactly its fields, and a text field comes back unchanged |
| Analytics.FieldMatchesRfc | backend/routes/analytics.js:216-219 | for a text without quotes or line breaks the field is what RFC 4180 section 2 writes |
| Analytics.QuotesNotDoubled | backend/routes/analytics.js:217-218 | a text holding a comma and a quote is enclosed without doubling the quote, unlike RFC 4180 |
| Analytics.LineBreakNotEnclosed | backend/routes/analytics.js:217-219 | a text holding a line break and no comma is written bare, unlike RFC 4180 |
| Analytics.LineBreakSplitsRow | backend/routes/analytics.js:213-223 | one row whose text holds a line break yields a CSV text of three lines for two records |
| Analytics.QueryFor | backend/routes/analytics.js:178-210 | 'goals' selects the goals query and 'progress' the progress query; the range applies iff both dates are given; any other type, the default 'all' included, selects nothing |
| Analytics.ProgressKeys | backend/routes/analytics.js:194-208 | reference definition of the progress query's rows (instances whose goal exists and, with a range, whose day lies in it); `Analytics.SelectProgress` and `Analytics.ExportData` are proved to return exactly these |
| Analytics.GoalRow | backend/routes/analytics.js:184-190 | a goals row has the fixed goals columns in order and holds a line break iff the goal's title or description does |
| Analytics.InstanceRow | backend/routes/analytics.js:198-206 | a progress row has the fixed progress columns in order and holds a line break iff the goal's title does |
| Analytics.GoalsExportLines | backend/routes/analytics.js:213-223 | a goals export with no line break in any title or description is the fixed header line followed by one line per goal |
| Analytics.ProgressExportLines | backend/routes/analytics.js:213-223 | a progress export with no line break in any goal title is the fixed header line followed by one line per instance |
| Analytics.Answer | backend/routes/analytics.js:213-230 | no rows give the no-data answer; otherwise the attachment holds the CSV text |
| Analytics.SelectGoals | backend/routes/analytics.js:184-191 | one row per goal, each goal once |
| Analytics.SelectProgress | backend/routes/analytics.js:198-208 | one row per selected instance, each once, joined with its goal's title |
| Analytics.ExportData | backend/routes/analytics.js:176-235 | the answer is the CSV of the rows under the type's file name; any type other than goals and progress gives no data; for goals the rows are the goal rows of every goal, each goal once; for progress they are the joined rows of exactly the instances whose goal exists and, when both dates are given, whose day lies between them, each once |

## Left out

- Clocks and time zones: "today" is a parameter and yesterday is `today - 1`. Dates are day numbers. Timestamps (`created_at`, `updated_at`, `completed_at`, `achieved_at`) are not modelled.
- Cron timing, the 500 ms start-up delay, logging, and the interleaving of a run with concurrent requests. Each method runs to completion.
- Carryover.RawCarryover: the multiplier is an exact rational. The source multiplies floating-point numbers, so `Math.ceil` can come out one higher. For example, a remainder of 50 × 1.1 is 55.00000000000001 in double precision, which gives 56 where the model gives 55.
- sqlite row ids: an instance is identified by its goal and day (the UNIQUE constraint). INSERT OR REPLACE in the source gives the row a new id, which leaves the replaced row's progress entries pointing at a missing row. The model keeps the key.
- Store failures in the goal and export routes (their 500 answers from the catch blocks) are not modelled. Store failures are modelled only in the carryover run.
- GoalRoutes.UpdateGoal: apart from the multiplier and the cap, which may be omitted and are then written as NULL, a PUT body is taken to give every column. Other omitted columns, which the source also writes as NULL, are not modelled. Neither is skipping today's instance when `target_value` is absent.
- GoalRoutes.RecordProgress: the increment is an integer. A string increment, which JavaScript would concatenate, is not modelled; nor are a fractional one or a non-numeric goal id.
- null versus undefined in request bodies: an absent field takes its default, and an explicit null is not distinguished.
- Categories: the category joins and the `category_name`, `category_color` and `category_icon` columns.
- ORDER BY clauses: query results come back in an arbitrary order (`Store.Enumerate`).
- The export's columns: `carryover_multiplier` (a REAL), `current_value` of the goals table, the timestamps, the instance id and notes are not in the exported rows. The date suffix of the file name is left out.
- JavaScript number formatting beyond integers: exponents and fractions.
- The goal history route (`GET /:id/history`) and the other analytics routes are not part of this model.
