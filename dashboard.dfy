/** The central dashboard (app.py): it reads both databases, shows the DPP
    metrics and the subject summary, the planner snapshot (overdue and
    upcoming counts, the seven-day list), the daily quote, and offers to
    clear either table. */
module Dashboard {
  import opened Common
  import opened Sorting
  import opened Text
  import opened StudyPlanner
  import opened DppLogger

  // ---------------------------------------------------------------- loading

  /** load_dpp_logs_from_db: no database file gives an empty frame;
      otherwise every row, newest date first, then the highest ID first. */
  function LoadDashboardDpp(dbExists: bool, rows: seq<DppLog>): (r: seq<DppLog>)
    ensures !dbExists ==> r == []
    ensures dbExists ==> multiset(r) == multiset(rows) && SortedBy(r, NewestFirst)
  {
    if dbExists then LoadDppLogs(rows) else []
  }

  /** `ORDER BY DueDate ASC`: the dashboard sorts the planner on the due
      date alone, so tasks due on one day may come in any order. */
  predicate EarlierDue(a: StudyTask, b: StudyTask) {
    a.entry.dueDate <= b.entry.dueDate
  }

  lemma EarlierDueIsTotalPreorder()
    ensures IsTotalPreorder(EarlierDue)
  {
  }

  /** load_planner_tasks_from_db: no database file gives an empty frame;
      otherwise every task in due-date order. */
  function LoadDashboardTasks(dbExists: bool, tasks: seq<StudyTask>): (r: seq<StudyTask>)
    ensures !dbExists ==> r == []
    ensures dbExists ==> multiset(r) == multiset(tasks) && SortedBy(r, EarlierDue)
  {
    EarlierDueIsTotalPreorder();
    if dbExists then Sort(tasks, EarlierDue) else []
  }

  /** The columns the planner query names whatever the table holds. */
  const BaseColumns: seq<string> := ["ID", "Subject", "Topic", "DueDate", "Status", "Priority"]

  /** The select list built from `PRAGMA table_info(study_tasks)`. */
  function SelectColumns(available: seq<string>): seq<string> {
    BaseColumns
      + (if "Notes" in available then ["Notes"] else [])
      + (if "CreatedDate" in available then ["CreatedDate"] else [])
  }

  /** The six base columns always come first and in their fixed order;
      Notes and then CreatedDate follow exactly when the table has them;
      nothing else is selected and no column twice. */
  lemma SelectColumnsSpec(available: seq<string>)
    ensures var cols := SelectColumns(available);
      && 6 <= |cols| <= 8
      && cols[..6] == BaseColumns
      && ("Notes" in cols <==> "Notes" in available)
      && ("CreatedDate" in cols <==> "CreatedDate" in available)
      && (forall k :: 6 <= k < |cols| ==> cols[k] in available && (cols[k] == "Notes" || cols[k] == "CreatedDate"))
      && (forall k, m :: 6 <= k < m < |cols| ==> cols[k] == "Notes" && cols[m] == "CreatedDate")
      && (forall k, m :: 0 <= k < m < |cols| ==> cols[k] != cols[m])
  {
    var cols := SelectColumns(available);
    assert "Notes" !in BaseColumns && "CreatedDate" !in BaseColumns;
    assert "Notes" != "CreatedDate";
    assert forall k :: 6 <= k < |cols| ==> cols[k] !in BaseColumns;
  }

  // ------------------------------------------------------- planner snapshot

  function PendingTasks(tasks: seq<StudyTask>): seq<StudyTask> {
    Filter(tasks, IsPending)
  }

  predicate OverdueOn(t: StudyTask, today: int) {
    IsPending(t) && t.entry.dueDate < today
  }

  predicate UpcomingOn(t: StudyTask, today: int) {
    IsPending(t) && t.entry.dueDate >= today
  }

  /** The overdue metric: the Pending tasks due before today. */
  function OverdueTasks(tasks: seq<StudyTask>, today: int): seq<StudyTask> {
    Filter(tasks, (t: StudyTask) => OverdueOn(t, today))
  }

  /** The upcoming metric: the Pending tasks due today or later. */
  function UpcomingTasks(tasks: seq<StudyTask>, today: int): seq<StudyTask> {
    Filter(tasks, (t: StudyTask) => UpcomingOn(t, today))
  }

  /** The three metrics of the snapshot tab. */
  datatype Snapshot = Snapshot(totalTasks: nat, overdue: nat, upcoming: nat)

  function PlannerSnapshot(tasks: seq<StudyTask>, today: int): Snapshot {
    Snapshot(|tasks|, |OverdueTasks(tasks, today)|, |UpcomingTasks(tasks, today)|)
  }

  /** Overdue and upcoming are the Pending tasks split at today: each is
      exactly its condition, the two together count every Pending task once,
      and every task counted overdue is also one the planner page
      highlights. */
  lemma PlannerSnapshotSpec(tasks: seq<StudyTask>, today: int)
    ensures var s := PlannerSnapshot(tasks, today);
      && (forall t :: t in OverdueTasks(tasks, today) <==> t in tasks && IsPending(t) && t.entry.dueDate < today)
      && (forall t :: t in UpcomingTasks(tasks, today) <==> t in tasks && IsPending(t) && t.entry.dueDate >= today)
      && s.overdue + s.upcoming == |PendingTasks(tasks)|
      && s.overdue <= |Filter(tasks, (t: StudyTask) => IsHighlightedOverdue(t, today))|
      && s.overdue + s.upcoming <= s.totalTasks
  {
    FilterSplitCount(tasks, IsPending, (t: StudyTask) => OverdueOn(t, today), (t: StudyTask) => UpcomingOn(t, today));
    FilterMonotoneCount(tasks, (t: StudyTask) => OverdueOn(t, today), (t: StudyTask) => IsHighlightedOverdue(t, today));
  }

  /** The dashboard and the planner page mean different things by overdue:
      a task In Progress past its due date is highlighted on the planner
      page but not counted overdue here. */
  lemma OverdueDefinitionsDiffer(t: StudyTask, today: int)
    requires t.entry.status == "In Progress" && t.entry.dueDate < today
    ensures IsHighlightedOverdue(t, today)
    ensures OverdueTasks([t], today) == []
  {
    assert !IsPending(t);
  }

  /** The snapshot counts masks over rows, so the order the rows were loaded
      in does not change it. */
  lemma SnapshotIgnoresLoadOrder(tasks: seq<StudyTask>, today: int)
    ensures PlannerSnapshot(LoadDashboardTasks(true, tasks), today) == PlannerSnapshot(tasks, today)
  {
    var loaded := LoadDashboardTasks(true, tasks);
    FilterCountPermutation(loaded, tasks, (t: StudyTask) => OverdueOn(t, today));
    FilterCountPermutation(loaded, tasks, (t: StudyTask) => UpcomingOn(t, today));
    assert |loaded| == |multiset(loaded)| == |multiset(tasks)| == |tasks|;
  }

  /** The seven-day list's mask: not Completed and due from today to a week
      from today, both ends included. */
  predicate InWindow(t: StudyTask, today: int) {
    NotCompleted(t) && today <= t.entry.dueDate <= today + 7
  }

  /** `.sort_values('DueDate')` of the masked frame. */
  function SevenDayWindow(tasks: seq<StudyTask>, today: int): (r: seq<StudyTask>)
    ensures multiset(r) == multiset(Filter(tasks, (t: StudyTask) => InWindow(t, today)))
    ensures SortedBy(r, EarlierDue)
  {
    EarlierDueIsTotalPreorder();
    Sort(Filter(tasks, (t: StudyTask) => InWindow(t, today)), EarlierDue)
  }

  /** The list holds exactly the tasks not Completed and due within the next
      seven days, in due-date order; it is no longer than the open tasks,
      and each Pending task on it is also counted as upcoming. */
  lemma SevenDayWindowSpec(tasks: seq<StudyTask>, today: int)
    ensures var r := SevenDayWindow(tasks, today);
      && (forall t :: t in r <==> t in tasks && t.entry.status != "Completed" && today <= t.entry.dueDate <= today + 7)
      && SortedBy(r, EarlierDue)
      && |r| <= Summarize(tasks).total - Summarize(tasks).completed
      && (forall t :: t in r && IsPending(t) ==> t in UpcomingTasks(tasks, today))
  {
    var r := SevenDayWindow(tasks, today);
    var f := Filter(tasks, (t: StudyTask) => InWindow(t, today));
    forall t ensures t in r <==> t in f {
      assert t in r <==> t in multiset(r);
    }
    assert |r| == |multiset(r)| == |multiset(f)| == |f|;
    FilterMonotoneCount(tasks, (t: StudyTask) => InWindow(t, today), NotCompleted);
    SummaryBounds(tasks);
  }

  // ----------------------------------------------------- DPP subject summary

  /** groupby sorts its keys: the summary lists subjects in name order. */
  predicate SubjectNameOrder(a: SubjectPerformance, b: SubjectPerformance) {
    StrLe(a.subject, b.subject)
  }

  lemma SubjectNameOrderIsTotalPreorder()
    ensures IsTotalPreorder(SubjectNameOrder)
  {
    forall a: SubjectPerformance, b: SubjectPerformance ensures SubjectNameOrder(a, b) || SubjectNameOrder(b, a) {
      StrLeTotal(a.subject, b.subject);
    }
    forall a: SubjectPerformance, b: SubjectPerformance, c: SubjectPerformance
      | SubjectNameOrder(a, b) && SubjectNameOrder(b, c)
      ensures SubjectNameOrder(a, c)
    {
      StrLeTransitive(a.subject, b.subject, c.subject);
    }
  }

  /** `dpp_df.groupby('Subject').agg(...)`: count, mean accuracy and mean
      time of each subject's rows. */
  function SubjectSummary(rows: seq<DppLog>): (r: seq<SubjectPerformance>)
    ensures multiset(r) == multiset(GroupBySubject(rows))
    ensures SortedBy(r, SubjectNameOrder)
  {
    SubjectNameOrderIsTotalPreorder();
    Sort(GroupBySubject(rows), SubjectNameOrder)
  }

  /** One row per subject that occurs, each with that subject's aggregates,
      in strictly ascending subject order, and the counts add up to the
      number of logged DPPs shown above it. */
  lemma SubjectSummarySpec(rows: seq<DppLog>)
    ensures var r := SubjectSummary(rows);
      && (forall i :: 0 <= i < |rows| ==> exists k :: 0 <= k < |r| && r[k].subject == rows[i].entry.subject)
      && (forall k :: 0 <= k < |r| ==> HasSubject(rows, r[k].subject) && r[k] == Aggregate(rows, r[k].subject))
      && (forall k, m :: 0 <= k < m < |r| ==> StrLt(r[k].subject, r[m].subject))
      && SumOf(r, TotalDppsOf) == |rows|
  {
    var r := SubjectSummary(rows);
    PermutedGroupsSpec(rows, r);
    forall k, m | 0 <= k < m < |r| ensures StrLt(r[k].subject, r[m].subject) {
      assert SubjectOf(r[k]) != SubjectOf(r[m]);
    }
  }

  /** The total on the DPP tab equals the sum of the summary's counts, and
      is the number of stored logs. */
  lemma DppTotalsAgree(dbExists: bool, rows: seq<DppLog>)
    ensures var loaded := LoadDashboardDpp(dbExists, rows);
      && SumOf(SubjectSummary(loaded), TotalDppsOf) == |loaded|
      && |loaded| == (if dbExists then |rows| else 0)
  {
    var loaded := LoadDashboardDpp(dbExists, rows);
    SubjectSummarySpec(loaded);
    assert |loaded| == |multiset(loaded)|;
  }

  // ------------------------------------------------------------ daily quote

  /** The quote shown: the built-in default or one taken from the file. */
  datatype Quote = DefaultQuote | FileQuote(text: string)

  /** The text on the banner. */
  function QuoteText(q: Quote): string {
    match q
    case DefaultQuote => "\U{1F4A1} Discipline is the bridge between goals and accomplishment."
    case FileQuote(text) => text
  }

  predicate NonBlank(line: string) {
    !IsBlank(line)
  }

  /** `[q.strip() for q in f if q.strip()]` over the lines of the file. */
  function Quotes(lines: seq<string>): (qs: seq<string>)
    ensures |qs| <= |lines|
    ensures forall k :: 0 <= k < |qs| ==> qs[k] != [] && Strip(qs[k]) == qs[k]
  {
    var kept := Filter(lines, NonBlank);
    var qs := seq(|kept|, k requires 0 <= k < |kept| => Strip(kept[k]));
    assert forall k :: 0 <= k < |qs| ==> qs[k] != [] && Strip(qs[k]) == qs[k] by {
      forall k | 0 <= k < |qs| ensures qs[k] != [] && Strip(qs[k]) == qs[k] {
        StripIdempotent(kept[k]);
      }
    }
    qs
  }

  /** A text is a quote exactly when it is some non-blank line, stripped. */
  lemma QuotesSpec(lines: seq<string>)
    ensures forall q :: q in Quotes(lines) <==> exists i :: 0 <= i < |lines| && NonBlank(lines[i]) && q == Strip(lines[i])
  {
    var kept := Filter(lines, NonBlank);
    var qs := Quotes(lines);
    forall q | q in qs
      ensures exists i :: 0 <= i < |lines| && NonBlank(lines[i]) && q == Strip(lines[i])
    {
      var k :| 0 <= k < |qs| && qs[k] == q;
      assert kept[k] in lines;
    }
    forall i | 0 <= i < |lines| && NonBlank(lines[i]) ensures Strip(lines[i]) in qs {
      assert lines[i] in kept;
      var k :| 0 <= k < |kept| && kept[k] == lines[i];
      assert qs[k] == Strip(lines[i]);
    }
  }

  /** get_daily_quote: the pick-th quote (the random choice) when the file
      exists and has one, else the default. */
  function DailyQuote(fileExists: bool, lines: seq<string>, pick: nat): Quote {
    var qs := Quotes(lines);
    if fileExists && qs != [] then FileQuote(qs[PickIndex(pick, |qs|)]) else DefaultQuote
  }

  /** The index random.choice lands on, from a draw of any size. */
  function PickIndex(pick: nat, n: nat): (k: nat)
    requires n > 0
    ensures k < n
    ensures pick < n ==> k == pick
  {
    pick % n
  }

  /** The default is shown exactly when there is no file or no non-blank
      line in it; otherwise the quote is one of the stripped non-blank lines,
      and each quote is the one shown for some pick. */
  lemma DailyQuoteSpec(fileExists: bool, lines: seq<string>, pick: nat)
    ensures DailyQuote(fileExists, lines, pick) == DefaultQuote <==>
      !fileExists || forall i :: 0 <= i < |lines| ==> !NonBlank(lines[i])
    ensures DailyQuote(fileExists, lines, pick).FileQuote? ==>
      var q := DailyQuote(fileExists, lines, pick).text;
      && q != [] && Strip(q) == q
      && exists i :: 0 <= i < |lines| && NonBlank(lines[i]) && q == Strip(lines[i])
    ensures forall k: nat :: k < |Quotes(lines)| ==> DailyQuote(true, lines, k) == FileQuote(Quotes(lines)[k])
  {
    var qs := Quotes(lines);
    QuotesSpec(lines);
    if fileExists && exists i :: 0 <= i < |lines| && NonBlank(lines[i]) {
      var i :| 0 <= i < |lines| && NonBlank(lines[i]);
      assert Strip(lines[i]) in qs;
    }
    if qs != [] {
      assert qs[PickIndex(pick, |qs|)] in qs;
    }
  }

  // ---------------------------------------------------------------- clearing

  /** The DPP clear button: `DELETE FROM dpp_log` once the button was pressed
      and the confirmation ticked, nothing otherwise. AUTOINCREMENT keeps its
      counter, so later IDs are not reused. The two flags come from the
      intended flow of Reruns.ArmedRun; as the page is written they never
      hold in the same run (Reruns.NestedNeverConfirms). */
  method ClearDppData(table: DppLogTable, pressed: bool, confirmed: bool) returns (cleared: bool)
    requires table.Valid()
    modifies table
    ensures table.Valid()
    ensures cleared == (pressed && confirmed)
    ensures table.rows == (if cleared then [] else old(table.rows))
    ensures table.nextId == old(table.nextId)
  {
    cleared := pressed && confirmed;
    if cleared {
      table.ClearAll();
    }
  }

  /** The planner clear button: `DELETE FROM study_tasks` on the same two
      conditions. */
  method ClearPlannerData(table: StudyTaskTable, pressed: bool, confirmed: bool) returns (cleared: bool)
    requires table.Valid()
    modifies table
    ensures table.Valid()
    ensures cleared == (pressed && confirmed)
    ensures table.tasks == (if cleared then [] else old(table.tasks))
    ensures table.nextId == old(table.nextId)
  {
    cleared := pressed && confirmed;
    if cleared {
      table.ClearAll();
    }
  }

  /** Once cleared, both tabs have nothing to show: the loads are empty and
      every snapshot count is zero. */
  lemma ClearedTablesShowNothing(today: int)
    ensures LoadDashboardDpp(true, []) == []
    ensures PlannerSnapshot(LoadDashboardTasks(true, []), today) == Snapshot(0, 0, 0)
    ensures SevenDayWindow([], today) == []
  {
    var loaded := LoadDashboardTasks(true, []);
    assert |loaded| == |multiset(loaded)| == 0;
    var w := SevenDayWindow([], today);
    assert |w| == |multiset(w)| == 0;
  }
}
