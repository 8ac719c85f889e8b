# Quantum Study Dashboard — a verified model of its record stores

The Quantum Study Dashboard is a set of Streamlit pages over SQLite files.
Underneath the widgets, CSS and charts it keeps three record tables:

- `dpp_log` holds daily practice problems (DPPs). It is written by the DPP logger page.
- `study_tasks` holds study tasks. It is written by the study planner page.
- `mock_test_results` holds mock-test results. It is written by the mock-test logger page.

The central dashboard (`app.py`) reads the first two tables, summarises them, shows a daily quote, and offers to clear either table. As written, the confirmation of a clear cannot be read in a run that reaches the DELETE ("## Findings").

This project models that logic in Dafny and proves what the pages promise:

- the insert, update and delete helpers of each table, with their UNIQUE keys and AUTOINCREMENT IDs;
- the validators and the submit and edit flows;
- the load orderings and the history filters and search;
- the group-by summaries;
- the derived mock-test columns;
- the grid-edit reconciliation and commit loop of the mock-test page;
- the replies the AI Nexus co-pilot chooses;
- the dashboard's load functions, snapshot metrics, seven-day list, column selection, daily quote and clear-all buttons;
- Streamlit's rerun behaviour for a confirmation nested under a button, as written and as intended.

Modules follow the program's structure:

| module | file | models |
|---|---|---|
| `Common` | common.dfy | filters, subsequences, distinctness, sums: collection facts the other modules use |
| `Sorting` | sorting.dfy | insertion sort against a total preorder. It stands for SQL `ORDER BY` and pandas `sort_values`; no stability is assumed |
| `Text` | text.dfy | `str.strip`, `str.lower` over ASCII, substring search, code-point string order |
| `Cells` | cells.dfy | mock-test cells, `strftime("%Y-%m-%d")`, the sqlite3 date adapter, SQLite's sort order |
| `DppLogger` | dpp_logger.dfy | pages/dpp_logger.py |
| `StudyPlanner` | study_planner.dfy | pages/study_planner.py |
| `MockLog` | mock_log.dfy | the table helpers, load and form of pages/mock_log.py |
| `MockGrid` | mock_grid.dfy | the "Manage Historical Data Matrix" tab of pages/mock_log.py |
| `AiNexus` | ai_nexus.dfy | `ai_nexus_response` in pages/mock_log.py |
| `Dashboard` | dashboard.dfy | app.py |
| `Reruns` | reruns.dfy | the button-then-confirm pattern of app.py and the two pages' single-row deletes, one run per user action |

Tables whose rows change in place are classes: `DppLogTable`, `StudyTaskTable` and `MockTestTable`. Each holds its rows as a sequence; the first two also hold the next AUTOINCREMENT value. Each has a `Valid()` invariant: IDs and UNIQUE keys are held by at most one row. Every mutating method preserves it. Loops in the source are Dafny `while` loops with invariants, proved against specification functions:

- the change check over a row's columns (`MockGrid.RowChanged`);
- the queueing loop over the edited grid (`MockGrid.Reconcile`);
- the delete, write-back and add loops of the commit, which count successes (`MockGrid.DeleteListed`, `MockGrid.WriteBack`, `MockGrid.CommitQueued`).

Conventions:

- **Today and other inputs:** "today" is a parameter. Dates in `dpp_log` and `study_tasks` are integer day numbers; their stored ISO texts sort the same way.
- **Mock-test rows:** these are maps from column to cell, because that page handles its columns by name. Calendar dates and their two text spellings are modelled exactly. `Cells.IsoFormatOrder` proves that ISO texts sort chronologically.
- **Side inputs:** fresh IDs, the current time, the contents of `quotes.txt` and `random.choice` are parameters. The `random.choice` draw is an index.

Where the code and its description disagree, the model follows the code:

- Each validator reports only the first rule that fails. It returns at the first failure, so the page never lists all errors at once.
- The planner's validation (due date not in the past) also runs when a task is edited, not only when it is created (pages/study_planner.py:621).
- The dashboard counts a task as overdue only when it is `Pending`. The planner page highlights any task that is not `Completed`. `Dashboard.OverdueDefinitionsDiffer` exhibits a task on which they disagree.
- Where verification showed the code wrong ("## Findings"), the model keeps the code as written beside a corrected version, and the rest of the model uses the corrected one. The AI Nexus prediction is anchored on the latest assessment (`AiNexus.PredictReply`), where the code takes the earliest (`AiNexus.PredictReplyAsWritten`). The clear-all methods take the press and the confirmation as two flags that can hold together. That is the intended flow of `Reruns.ArmedRun`; as written (`Reruns.NestedRun`) they never hold in the same run.
- The mock-test form checks the test name with `not test_name`, so a name of spaces is accepted (`MockLog.SpacesOnlyNameAccepted`). The other pages strip such names and refuse them.

## Model

| member | source | states |
|---|---|---|
| Sorting.Sort | pages/dpp_logger.py:396 | the result is a permutation of the input, ordered by the given total preorder (any `ORDER BY` or `sort_values`) |
| Text.Strip | pages/dpp_logger.py:557-558 | `str.strip()`: the input less a run of whitespace at its start and one at its end, itself neither starting nor ending with whitespace, so exactly the leading and trailing whitespace is removed |
| Text.BlankIffAllSpace | pages/dpp_logger.py:467-471 | `not s.strip()` holds exactly when every character is whitespace |
| Text.StripIdempotent | pages/dpp_logger.py:557-558 | stripping twice is stripping once |
| Text.Lower | pages/dpp_logger.py:590-595 | same length; each ASCII capital lowered, every other character kept |
| Text.LowerIdempotent | pages/dpp_logger.py:590-595 | lowering a lowered text changes nothing |
| Text.Contains | pages/dpp_logger.py:593-595 | Python's `in` on strings: true exactly when the needle occurs at some index |
| Text.StrLeTotal | pages/study_planner.py:387 | text order (SQLite BINARY, Python `<`) is total |
| Text.StrLeTransitive | pages/study_planner.py:387 | text order is transitive |
| Cells.StrftimeAgreesWithIsoFormat | pages/mock_log.py:794 | from the year 1000 on, `strftime("%Y-%m-%d")` and `isoformat()` give the same ten-character text |
| Cells.IsoFormatOrder | pages/mock_log.py:508 | ISO date texts compare exactly as the dates do chronologically |
| Cells.IsoFormatInjective | pages/mock_log.py:508 | different dates are stored as different texts |
| Cells.Adapted | pages/mock_log.py:489-493 | the sqlite3 module never stores a date object, and binds every other value unchanged |
| Cells.SqlLeIsTotalPreorder | pages/mock_log.py:508 | SQLite's ascending order over NULL, numbers and texts is total and transitive |
| Cells.SqlLeOnDates | pages/mock_log.py:508 | dates stored through the adapter sort chronologically |
| DppLogger.WithEntryMissingId | pages/dpp_logger.py:432-437 | an UPDATE naming an ID no row has changes nothing |
| DppLogger.WithoutIdSpec | pages/dpp_logger.py:454 | a DELETE removes exactly the rows with that ID, keeps the rest in order, and is a no-op for a missing ID |
| DppLogger.DppLogTable.constructor | pages/dpp_logger.py:368-380 | a new table is empty, valid, and hands out ID 1 first |
| DppLogger.DppLogTable.Insert | pages/dpp_logger.py:406-425 | succeeds exactly when no row holds the (Date, Subject, Chapter, DPP_Number) key; then one row with the next ID is appended; otherwise rows and counter are unchanged; uniqueness is kept |
| DppLogger.DppLogTable.Update | pages/dpp_logger.py:427-447 | fails with no change exactly when another row holds the new key; otherwise all eight columns of row `id` are replaced and every ID kept |
| DppLogger.DppLogTable.Delete | pages/dpp_logger.py:449-457 | always succeeds; removes only the row with that ID; the ID counter is untouched |
| DppLogger.DppLogTable.ClearAll | app.py:577-579 | `DELETE FROM dpp_log` leaves no rows and keeps the AUTOINCREMENT counter |
| DppLogger.ValidateDppInputs | pages/dpp_logger.py:465-482 | accepts exactly when chapter and DPP number are non-blank, score and accuracy lie in 0..100, and time is positive; otherwise names the first failing rule in source order, all earlier rules holding |
| DppLogger.StoredIsStable | pages/dpp_logger.py:556-558 | storing the stripped values again changes nothing, and validation gives the same verdict on them as on the form |
| DppLogger.SubmitDpp | pages/dpp_logger.py:555-562 | a rejected or conflicting submit leaves the table as it was; the entry is saved exactly when it validates and its stripped key is free, and then it is appended under the next ID and the counter advances by one |
| DppLogger.EditDpp | pages/dpp_logger.py:637-643 | the edit is saved exactly when it validates and its stripped key is not held by another row; then the row's eight columns are replaced, otherwise nothing changes |
| DppLogger.LoadDppLogs | pages/dpp_logger.py:391-398 | every stored row once, ordered by Date descending, then ID descending |
| DppLogger.LoadOrderIsStrict | pages/dpp_logger.py:396 | with unique IDs the loaded order has no ties: each row is strictly later, or of the same date with a larger ID |
| DppLogger.FilteredViewSpec | pages/dpp_logger.py:584-597 | the view is a subsequence of the loaded rows, and a row is shown exactly when it matches the subject and date filters that are set and, for a non-empty query, the case-insensitive search on Chapter, DPP_Number or Notes |
| DppLogger.SubjectBreakdown | pages/dpp_logger.py:707-712 | the breakdown is a reordering of the per-subject groups, in descending average accuracy |
| DppLogger.SubjectBreakdownSpec | pages/dpp_logger.py:707-712 | one row per subject that occurs and no other; each row holds that subject's count and mean score, accuracy and time; the counts sum to the number of logs |
| DppLogger.OverallAgreesWithBreakdown | pages/dpp_logger.py:682-712 | the "Total DPPs Logged" metric equals the sum of the breakdown's counts |
| StudyPlanner.WithEntrySpec | pages/study_planner.py:419-429 | an update rewrites only the six editable columns of the row with that ID, keeps every ID and CreatedDate, and leaves other rows alone |
| StudyPlanner.WithoutIdSpec | pages/study_planner.py:441-449 | a delete removes exactly the tasks with that ID, keeps the rest in order, and is a no-op for a missing ID |
| StudyPlanner.StudyTaskTable.constructor | pages/study_planner.py:361-371 | a new table is empty, valid, and hands out ID 1 first |
| StudyPlanner.StudyTaskTable.Insert | pages/study_planner.py:398-417 | succeeds exactly when no task holds the (Subject, Topic, DueDate) key; then one task with the next ID and the given CreatedDate is appended; otherwise nothing changes |
| StudyPlanner.StudyTaskTable.Update | pages/study_planner.py:419-439 | fails with no change exactly when another task holds the new key; otherwise the six columns of task `id` are replaced |
| StudyPlanner.StudyTaskTable.Delete | pages/study_planner.py:441-449 | always succeeds; removes only the task with that ID |
| StudyPlanner.StudyTaskTable.ClearAll | app.py:590-597 | `DELETE FROM study_tasks` leaves no tasks and keeps the counter |
| StudyPlanner.ValidateTaskInputs | pages/study_planner.py:457-468 | accepts exactly when subject and topic are non-blank and the due date is not before today; otherwise names the first failing rule |
| StudyPlanner.StoredIsStable | pages/study_planner.py:535-537 | storing the stripped values again changes nothing and validates the same way |
| StudyPlanner.SubmitTask | pages/study_planner.py:534-543 | saved exactly when it validates and the stripped key is free; then appended under the next ID with today as CreatedDate and the counter advances by one; otherwise unchanged |
| StudyPlanner.EditTask | pages/study_planner.py:621-625 | the add form's validation, past due dates included, guards the edit; saved exactly when it validates and no other task holds the key |
| StudyPlanner.PriorityTextOrder | pages/study_planner.py:387 | as text, "High" < "Low" < "Medium": the order `Priority ASC` really gives |
| StudyPlanner.LoadStudyTasks | pages/study_planner.py:380-392 | every task once, by DueDate ascending, then Priority as text ascending, then ID descending |
| StudyPlanner.AcceptedTaskNotOverdue | pages/study_planner.py:583-586 | a task that passed validation today is not highlighted overdue today |
| StudyPlanner.FilteredTasksSpec | pages/study_planner.py:563-575 | the matrix is a subsequence of the loaded tasks, showing a task exactly when it matches the set subject and status filters and the case-insensitive search on Topic or Notes |
| StudyPlanner.SummaryBounds | pages/study_planner.py:655-663 | pending + completed never exceeds the total, and the not-completed count is total less completed |
| StudyPlanner.UpcomingSpec | pages/study_planner.py:680-683 | the due-date chart holds exactly the not-Completed tasks, as a subsequence of the loaded tasks (so in load order), each with DaysUntilDue = DueDate − today, negative exactly when highlighted overdue; its length is the total less the completed count |
| MockLog.ColumnSetIsSchema | pages/mock_log.py:434-459 | the column set is exactly the table's 24 columns, and the three derived columns are not among them |
| MockLog.AllowListIsSchemaLessKeys | pages/mock_log.py:573-582 | a column is allowed exactly when it is a table column other than `id`, `user_id` and `timestamp` |
| MockLog.NewRowSpec | pages/mock_log.py:479-493 | the added row has the generated key, every other table column as given through the adapter, no other column and no date object |
| MockLog.WrittenDateIsIsoText | pages/mock_log.py:584-588 | a date written to assessment_date, or bound to any column, is stored as its ISO text |
| MockLog.WithCellSpec | pages/mock_log.py:588 | the UPDATE sets that one column of the matching row, keeps its other cells and every other row, and changes nothing when no row matches |
| MockLog.WithoutTestSpec | pages/mock_log.py:557 | the DELETE removes exactly the matching rows, keeps the rest in order, and is a no-op when none matches |
| MockLog.WithCellKeepsTable | pages/mock_log.py:573-588 | an allowed update never changes a key, so keys stay unique and no date object is stored |
| MockLog.MockTestTable.constructor | pages/mock_log.py:434-459 | a new table is empty and valid |
| MockLog.MockTestTable.Add | pages/mock_log.py:469-500 | succeeds exactly when no row has the generated key; then exactly that new row is appended, otherwise nothing changes |
| MockLog.MockTestTable.Delete | pages/mock_log.py:551-564 | always succeeds; removes exactly the matching rows |
| MockLog.MockTestTable.UpdateColumn | pages/mock_log.py:566-595 | succeeds exactly when the column is allowed, and then writes that column of the matching row; a refused column writes nothing |
| MockLog.Trunc | pages/mock_log.py:520-529 | `.astype(int)` truncates toward zero |
| MockLog.ScorePercentBounds | pages/mock_log.py:534-535 | the percentage is 0 for a zero maximum, lies in 0..100 for a score within a positive maximum, and is 100 for a full score |
| MockLog.ScorePercentScales | pages/mock_log.py:534-535 | with a non-zero maximum, the percentage times the maximum is 100 times the score, so scores out of one maximum differ exactly when their percentages do |
| MockLog.QuestionAccuracyBounds | pages/mock_log.py:538-539 | accuracy is 0 when nothing was attempted, and lies in 0..100 when correct ≤ attempted |
| MockLog.UnattemptedSplitsPaper | pages/mock_log.py:542 | attempted + unattempted = total questions, and unattempted lies in 0..total when attempts do |
| MockLog.CoercedCellSpec | pages/mock_log.py:517-530 | a coerced column always holds a number: the fill value for a missing cell, a whole number for the int columns, the number itself for the float ones; other columns are untouched |
| MockLog.CoercedColumns | pages/mock_log.py:517-530 | only table columns are coerced, not the key, names, dates, difficulty, feedback, signature or timestamp; only max_score_possible defaults to 100 |
| MockLog.LoadedRowSpec | pages/mock_log.py:512-542 | a loaded row keeps every stored column coerced and every coerced column, missing ones included (NULL under `SELECT *`), and adds percentage_score, accuracy_q and unattempted from the coerced values; missing score and maximum give 0 percent, no attempts give 0 accuracy |
| MockLog.LoadedRowKeeps | pages/mock_log.py:512-530 | the load leaves id, user_id and assessment_date cells as stored |
| MockLog.SelectedRows | pages/mock_log.py:507-510 | the query's rows are a reordering of the selected user's rows, latest assessment date first |
| MockLog.SelectedRowsSpec | pages/mock_log.py:507-510 | a row is returned exactly when it is stored and belongs to the selected user (every row when no user is given) |
| MockLog.LoadMockTestResultsSpec | pages/mock_log.py:502-545 | one loaded row per selected stored row, each the coerced row with derived columns |
| MockLog.LoadMockTestResultsOrder | pages/mock_log.py:508-510 | loaded rows are in descending assessment-date order |
| MockLog.CheckMockForm | pages/mock_log.py:788-791 | records the assessment exactly when the test name is non-empty and the score does not exceed the maximum; otherwise names the first failing check |
| MockLog.SpacesOnlyNameAccepted | pages/mock_log.py:788 | a test name of one space passes the form although it is blank |
| MockLog.RecordedCell | pages/mock_log.py:793-798 | each column of a recorded row is the key, the form's adapted value, or absent |
| MockLog.RecordAssessment | pages/mock_log.py:787-805 | a refused form or a failed add changes nothing; recorded exactly when the checks pass and the fresh key is free, and then the form's row is appended |
| MockLog.RecordedRowSpec | pages/mock_log.py:793-798 | a recorded row has user 1, signature "rmj" and the submission time, whatever the form says |
| MockLog.RecordedDate | pages/mock_log.py:794 | the recorded date is the ISO text of the form's date |
| MockGrid.DateAsTextSpec | pages/mock_log.py:866-867 | `.astype(str)` on the date leaves no missing cell and no date object: a date becomes its ISO text, a missing one "None" |
| MockGrid.FirstWithId | pages/mock_log.py:878 | `.iloc[0]` of the rows with a key is a stored row with that key |
| MockGrid.FirstWithIdOfDistinct | pages/mock_log.py:878 | with distinct keys, the row found for a key is the row that has it |
| MockGrid.DeletedIdsSpec | pages/mock_log.py:870 | the keys to delete are exactly the stored keys the edited grid lacks, so none when every stored key is kept |
| MockGrid.RowChanged | pages/mock_log.py:879-891 | the column loop with its early `break` reports a change exactly when some compared column differs, two missing cells counting as equal |
| MockGrid.Reconcile | pages/mock_log.py:873-896 | the loop queues exactly the grid rows that are new or changed, in grid order |
| MockGrid.UnchangedGridCommitsNothing | pages/mock_log.py:869-896 | a grid equal to the stored rows on keys and compared cells queues nothing and deletes nothing |
| MockGrid.EditedCellIsQueued | pages/mock_log.py:881-893 | changing one compared cell of a stored row queues that row |
| MockGrid.AfterDeletesSpec | pages/mock_log.py:904-908 | the deletes remove exactly the rows whose key is listed and keep the rest in order |
| MockGrid.EditRowsSpec | pages/mock_log.py:912-917 | writing a row back never touches key, owner, signature or timestamp, nor another row; every allowed column of the edited row is written, other cells kept |
| MockGrid.WriteBack | pages/mock_log.py:914-916 | the per-column update loop, results ignored, leaves the table as the write-back function says |
| MockGrid.MissingDatePassesCompleteness | pages/mock_log.py:921 | after `.astype(str)` an empty date reads "None", so a new row passes the completeness test on its other five cells alone |
| MockGrid.GridRowSpec | pages/mock_log.py:926-931 | a row added from the grid has user 1, signature "rmj", the commit time, and difficulty "Medium" when the row has none |
| MockGrid.QueuedCountBounds | pages/mock_log.py:910-937 | every queued existing row counts one success and no queued row counts more than one |
| MockGrid.DeleteListed | pages/mock_log.py:904-908 | the delete loop deletes every listed key and counts each one, whether or not a row held it |
| MockGrid.CommitQueued | pages/mock_log.py:910-937 | the queued loop writes back existing rows, adds complete new ones, skips the rest, and counts as the specification says |
| MockGrid.Commit | pages/mock_log.py:902-937 | the table after the commit is the deletes then the queued rows, and success_count is their two counts summed |
| MockGrid.LoadedKeysDistinct | pages/mock_log.py:859 | the reloaded frame lists each key once |
| MockGrid.ShownRowAgrees | pages/mock_log.py:816-818 | dropping the derived columns keeps the key and every compared cell |
| MockGrid.UntouchedGridCommitsNothing | pages/mock_log.py:816-896 | a grid submitted as shown queues and deletes nothing |
| MockGrid.ApplyGridEdits | pages/mock_log.py:859-937 | from reload to commit: the table ends as the deletes then the queued commits, and the count is their sum |
| AiNexus.ClassifyIgnoresCase | pages/mock_log.py:602-697 | the command chosen does not depend on letter case |
| AiNexus.ClassifyFallback | pages/mock_log.py:602-697 | the query is unrecognised exactly when it has none of the five phrases; "performance summary" wins over every other phrase |
| AiNexus.DifficultyCodeSpec | pages/mock_log.py:643 | the four labels map to distinct codes 1..4, and nothing else gets a code |
| AiNexus.ScenarioCodesSpec | pages/mock_log.py:664-667 | the scenarios are one harder (capped at 4), the same, and one easier (floored at 1), staying in 1..4; an unknown code gives 4 and 1 |
| AiNexus.PredictReplySpec | pages/mock_log.py:637-667 | fewer than 5 rows give the insufficient-data reply, fewer than 2 usable rows the not-enough reply, otherwise a forecast with codes in 1..4, anchored on the last (latest) row: the corrected anchor of "## Findings", where the code takes the first row |
| AiNexus.NexusResponseSpec | pages/mock_log.py:598-697 | each command gets its kind of reply: an empty summary is refused, the summary counts every test, a motivation is one of five, the signature defaults to "UNKNOWN"; a prediction is the corrected `PredictReply` of "## Findings"; the reply ignores case |
| AiNexus.ByDate | pages/mock_log.py:1098 | the co-pilot's frame is a reordering of the loaded rows by ascending date, missing dates last |
| AiNexus.ForecastAnchorIsLatest | pages/mock_log.py:661-662 | in the sorted frame the last row is a loaded assessment no earlier than any other |
| AiNexus.AsWrittenAnchorIsEarliest | pages/mock_log.py:661-662 | as written, the forecast is built from the first row, which is no later than any other |
| AiNexus.AsWrittenAnchorMissesLatest | pages/mock_log.py:661-662 | for four tests on one day and one later, the as-written forecast uses the earliest test's 60 minutes while the latest took 100 |
| Dashboard.LoadDashboardDpp | app.py:365-383 | no database file gives no rows; otherwise every row, Date descending then ID descending |
| Dashboard.LoadDashboardTasks | app.py:385-424 | no database file gives no tasks; otherwise every task by DueDate ascending |
| Dashboard.SelectColumnsSpec | app.py:402-408 | the six base columns come first in fixed order; Notes, then CreatedDate, follow exactly when the table has them; nothing is repeated |
| Dashboard.PlannerSnapshotSpec | app.py:499-513 | overdue is exactly Pending and due before today, upcoming exactly Pending and due today or later; together they count each Pending task once, within the total |
| Dashboard.OverdueDefinitionsDiffer | app.py:508 | an In Progress task past due is highlighted by the planner page but not counted overdue here |
| Dashboard.SnapshotIgnoresLoadOrder | app.py:499-513 | the metrics do not depend on the load order |
| Dashboard.SevenDayWindow | app.py:527-533 | the seven-day list is a reordering of the in-window tasks by due date |
| Dashboard.SevenDayWindowSpec | app.py:527-533 | a task is listed exactly when it is not Completed and today ≤ DueDate ≤ today+7; the list is sorted; every Pending entry is also counted upcoming |
| Dashboard.SubjectSummary | app.py:471-476 | the summary is a reordering of the per-subject groups in subject-name order |
| Dashboard.SubjectSummarySpec | app.py:471-476 | one row per subject that occurs, with its aggregates, in strictly ascending name order; counts sum to the number of logs |
| Dashboard.DppTotalsAgree | app.py:457-476 | "Total DPPs Logged" equals the summary's counts summed and the number of stored logs |
| Dashboard.Quotes | app.py:431 | each quote is a non-empty stripped text, and there are no more quotes than lines |
| Dashboard.QuotesSpec | app.py:431 | a text is a quote exactly when it is some non-blank line stripped |
| Dashboard.PickIndex | app.py:433 | the draw lands on a valid index, and on the draw itself when that is one |
| Dashboard.DailyQuoteSpec | app.py:426-434 | the default appears exactly when the file is missing or all its lines are blank; otherwise the quote is a stripped non-blank line, and every quote can be drawn |
| Dashboard.ClearDppData | app.py:573-582 | the table is emptied exactly when the button was pressed and the box ticked, the intended flow of "## Findings"; otherwise unchanged; the counter is kept |
| Dashboard.ClearPlannerData | app.py:586-600 | the same for study_tasks |
| Dashboard.ClearedTablesShowNothing | app.py:573-600 | after a clear (reachable in the intended flow only), the loads are empty and every count computed from them is zero, and the seven-day list is empty |
| Reruns.NestedNeverConfirms | app.py:574-578 | as written, with a checkbox or a button as the confirmation, no sequence of user actions has a run that reaches the DELETE |
| Reruns.AsWrittenConfirmIsLost | pages/dpp_logger.py:653-657 | pressing the delete button shows the confirmation, and confirming starts a run in which the outer button is False, so nothing is deleted |
| Reruns.ArmedRunSpec | app.py:574-578 | with the press kept in session state, a run deletes exactly when the button was pressed earlier and this run confirms (box ticked, or Confirm pressed) |
| Reruns.ArmedConfirmClears | pages/study_planner.py:636-640 | in the intended flow, press then confirm deletes in the second run, for a checkbox and for a button |
| Reruns.ArmedNeedsOuterClick | app.py:574-578 | in the intended flow, nothing is deleted unless the outer button is pressed |

## Left out

- Streamlit layout, CSS, tabs, forms, toasts, `st.rerun` and the chart calls: presentation only.
- The `st.cache_data` and `st.cache_resource` caches and their clearing: the model always reads the current table.
- `conn is None` guards and the `except sqlite3.Error` / `except Exception` fallbacks for errors other than UNIQUE conflicts: driver and I/O failures are not modelled. The one modelled failure is a UNIQUE or primary-key collision, which is the `false` result.
- MockLog.LoadMockTestResults: the `except Exception` of pages/mock_log.py:546-549 also catches `pd.to_datetime` rejecting a stored assessment_date that is not a date, and then the page loads no rows at all. The grid can store one: a new row without a date passes the completeness test (`MockGrid.MissingDatePassesCompleteness`) and is stored with the text "None". The model does not parse dates on load, so it keeps loading every row.
- `generate_unique_id` (SHA-256 of random input) is a given fresh key; `datetime.now()` is a given text; `date.today()` is a parameter.
- MockGrid.CommitQueued: one given time stamps every row a commit adds, where the page calls `datetime.now()` once per add (pages/mock_log.py:931), so rows added in one commit may carry slightly different timestamps there.
- The random forest fit and prediction, the ×0.9 and ×1.1 time scenarios, `.round(2)` and float means: foreign numeric code. The reply records the anchor time and the difficulty codes, not the numbers shown.
- AiNexus.NexusResponse: the performance summary's per-domain means and weakest/strongest domains are not modelled; only the test count, and whether any domain exists, are.
- The reply texts and `random.choice` among suggestions and motivations: a reply is the kind of message, and the choice is an index.
- `pd.to_datetime` on the DPP and planner date columns: those dates are day numbers throughout.
- MockLog.LoadedRowKeeps: states that the loaded assessment_date is the stored text, where the page converts it to a date object. The grid's `astype(str)` turns either form into the same ISO text, so the comparison is unaffected.
- The `pd.to_datetime` of `timestamp` and the `NaT` spelling of a missing converted date ("NaT" instead of "None" under `astype(str)`): conversions of display columns.
- Dashboard.LoadDashboardTasks: the `errors='coerce'` conversion of an unparsable DueDate to NaT; due dates are always day numbers here.
- Dashboard.SubjectSummary: the dashboard's summary has no average score, and the model's rows carry one that the dashboard does not show.
- Text.Lower: folds only the ASCII capitals A–Z; Python's `str.lower()` also lowers non-ASCII letters.
- Reading `quotes.txt` and the SQLite files: the lines and the rows are parameters, and a missing database file is a boolean.
- Dashboard.ClearDppData and Dashboard.ClearPlannerData take the press and the confirmation as two given flags. As written they never hold in the same run (`Reruns.NestedNeverConfirms`). The methods model the clear in the intended flow of `Reruns.ArmedRun`.
- The single-row deletes of pages/dpp_logger.py:653-657 and pages/study_planner.py:636-640: the table methods model the DELETE, and `Reruns` models the button-then-Confirm runs in front of it. As written those runs never reach it. The "Commit Changes to Database" button is guarded by the editor's state, which persists across runs, so the model runs the commit the user pressed.
- The CSV export, database backup download and restore placeholder: file output only.
- pages/notes.py: a wrapper over `utils.load_data` and `utils.save_data`; utils.py is not part of this model.

## Findings

| source | as written | input that shows it | evidently intended | confidence | as-written member | corrected member |
|---|---|---|---|---|---|---|
| pages/mock_log.py:661-662 | the forecast anchor is `iloc[0]` of the frame sorted by ascending assessment date, which is the earliest test | five usable tests, four on one day taking 60–90 minutes and one on a later day taking 100: the scenarios start from 60 minutes | the latest test, as the comment "Assuming latest" says: here 100 minutes | not executed | AiNexus.AsWrittenAnchorMissesLatest | AiNexus.ForecastAnchorIsLatest |
| app.py:574-575 | the confirmation checkbox is created inside `if st.button("Clear All …")` (also app.py:587-588). Ticking it starts a new run in which the button is False, so the DELETE at app.py:578 (and 592) is never reached | press "Clear All DPP Log Data", then tick the box: the second run skips the block and the box disappears | the tick confirms the clear: the press is kept in session state, the box stays shown, and ticking it runs the DELETE | not executed | Reruns.NestedNeverConfirms | Reruns.ArmedConfirmClears |
| pages/dpp_logger.py:653-656 | the "Confirm Deletion" button is created inside `if st.button("Permanently Delete …")` (also pages/study_planner.py:636-639). Clicking it starts a run in which the outer button is False | press "Permanently Delete Entry ID 3", then "Confirm Deletion": the second run deletes nothing | the Confirm click deletes the selected entry | not executed | Reruns.AsWrittenConfirmIsLost | Reruns.ArmedRunSpec |
