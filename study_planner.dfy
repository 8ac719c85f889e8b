/** The study planner page: the study_tasks table with its insert, update and
    delete helpers, the input validator (used by both the add and the edit
    form), the task matrix with its filters, search and overdue highlight,
    and the analytics counts. */
module StudyPlanner {
  import opened Common
  import opened Sorting
  import opened Text

  /** The six columns an edit may set. DueDate is a day number standing for
      the "YYYY-MM-DD" text the page stores. */
  datatype TaskEntry = TaskEntry(
    subject: string, topic: string, dueDate: int,
    priority: string, status: string, notes: string)

  /** A stored task: its AUTOINCREMENT ID, the editable columns and the day
      it was created, which no edit touches. */
  datatype StudyTask = StudyTask(id: int, entry: TaskEntry, createdDate: int)

  /** The columns of UNIQUE(Subject, Topic, DueDate). */
  datatype TaskKey = TaskKey(subject: string, topic: string, dueDate: int)

  function KeyOf(e: TaskEntry): TaskKey {
    TaskKey(e.subject, e.topic, e.dueDate)
  }

  function TaskKeyOf(t: StudyTask): TaskKey {
    KeyOf(t.entry)
  }

  function TaskId(t: StudyTask): int {
    t.id
  }

  predicate HasId(tasks: seq<StudyTask>, id: int) {
    exists i :: 0 <= i < |tasks| && tasks[i].id == id
  }

  predicate KeyHeld(tasks: seq<StudyTask>, k: TaskKey) {
    exists i :: 0 <= i < |tasks| && TaskKeyOf(tasks[i]) == k
  }

  predicate KeyHeldByOther(tasks: seq<StudyTask>, id: int, k: TaskKey) {
    exists i :: 0 <= i < |tasks| && tasks[i].id != id && TaskKeyOf(tasks[i]) == k
  }

  /** The tasks after `UPDATE ... WHERE ID = id` has set the six columns to e. */
  function WithEntry(tasks: seq<StudyTask>, id: int, e: TaskEntry): seq<StudyTask> {
    seq(|tasks|, i requires 0 <= i < |tasks| => if tasks[i].id == id then tasks[i].(entry := e) else tasks[i])
  }

  /** The tasks after `DELETE ... WHERE ID = id`. */
  function WithoutId(tasks: seq<StudyTask>, id: int): seq<StudyTask> {
    Filter(tasks, (t: StudyTask) => t.id != id)
  }

  /** An update keeps every ID and every CreatedDate, changes only the row
      with that ID, and with no such row changes nothing. */
  lemma WithEntrySpec(tasks: seq<StudyTask>, id: int, e: TaskEntry)
    ensures var r := WithEntry(tasks, id, e);
      && |r| == |tasks|
      && (forall i :: 0 <= i < |r| ==> r[i].id == tasks[i].id && r[i].createdDate == tasks[i].createdDate)
      && (forall i :: 0 <= i < |r| && tasks[i].id == id ==> r[i].entry == e)
      && (forall i :: 0 <= i < |r| && tasks[i].id != id ==> r[i] == tasks[i])
      && (!HasId(tasks, id) ==> r == tasks)
  {
    var r := WithEntry(tasks, id, e);
    if !HasId(tasks, id) {
      forall i | 0 <= i < |tasks| ensures r[i] == tasks[i] {
        assert tasks[i].id != id;
      }
    }
  }

  /** A delete removes exactly the tasks with that ID, keeps the rest in
      order, and removes nothing when no task has that ID. */
  lemma WithoutIdSpec(tasks: seq<StudyTask>, id: int)
    ensures forall t :: t in WithoutId(tasks, id) <==> t in tasks && t.id != id
    ensures IsSubseq(WithoutId(tasks, id), tasks)
    ensures !HasId(tasks, id) ==> WithoutId(tasks, id) == tasks
  {
    FilterIsSubseq(tasks, (t: StudyTask) => t.id != id);
    if !HasId(tasks, id) {
      FilterKeepsAll(tasks, (t: StudyTask) => t.id != id);
    }
  }

  /** The study_tasks table: its rows in storage order and the next value the
      AUTOINCREMENT sequence hands out. */
  class StudyTaskTable {
    var tasks: seq<StudyTask>
    var nextId: int

    ghost predicate Valid()
      reads this
    {
      && DistinctBy(tasks, TaskId)
      && DistinctBy(tasks, TaskKeyOf)
      && 1 <= nextId
      && forall i :: 0 <= i < |tasks| ==> 1 <= tasks[i].id < nextId
    }

    constructor ()
      ensures Valid()
      ensures tasks == [] && nextId == 1
    {
      tasks := [];
      nextId := 1;
    }

    /** insert_study_task: the task is added under a fresh ID unless its key
        is already held, in which case nothing changes. */
    method Insert(e: TaskEntry, createdDate: int) returns (ok: bool)
      requires Valid()
      modifies this
      ensures Valid()
      ensures ok <==> !KeyHeld(old(tasks), KeyOf(e))
      ensures ok ==> tasks == old(tasks) + [StudyTask(old(nextId), e, createdDate)] && nextId == old(nextId) + 1
      ensures !ok ==> tasks == old(tasks) && nextId == old(nextId)
    {
      if KeyHeld(tasks, KeyOf(e)) {
        return false;
      }
      var task := StudyTask(nextId, e, createdDate);
      assert forall i :: 0 <= i < |tasks| ==> TaskKeyOf(tasks[i]) != TaskKeyOf(task);
      tasks := tasks + [task];
      nextId := nextId + 1;
      ok := true;
    }

    /** update_study_task: the six editable columns of task id are replaced;
        it fails without change when another task holds the new key, and an
        ID that matches no task updates nothing and still succeeds. */
    method Update(id: int, e: TaskEntry) returns (ok: bool)
      requires Valid()
      modifies this
      ensures Valid()
      ensures ok <==> !(HasId(old(tasks), id) && KeyHeldByOther(old(tasks), id, KeyOf(e)))
      ensures ok ==> tasks == WithEntry(old(tasks), id, e)
      ensures !ok ==> tasks == old(tasks)
      ensures nextId == old(nextId)
    {
      if HasId(tasks, id) && KeyHeldByOther(tasks, id, KeyOf(e)) {
        return false;
      }
      var updated := WithEntry(tasks, id, e);
      forall i, j | 0 <= i < j < |updated| ensures TaskKeyOf(updated[i]) != TaskKeyOf(updated[j]) {
        if tasks[i].id == id {
          assert tasks[j].id != id;
        } else if tasks[j].id == id {
          assert tasks[i].id != id;
        }
      }
      tasks := updated;
      ok := true;
    }

    /** delete_study_task: removes the task with that ID, if any, and succeeds. */
    method Delete(id: int) returns (ok: bool)
      requires Valid()
      modifies this
      ensures Valid()
      ensures ok
      ensures tasks == WithoutId(old(tasks), id)
      ensures nextId == old(nextId)
    {
      FilterKeepsDistinct(tasks, (t: StudyTask) => t.id != id, TaskId);
      FilterKeepsDistinct(tasks, (t: StudyTask) => t.id != id, TaskKeyOf);
      tasks := WithoutId(tasks, id);
      ok := true;
    }

    /** `DELETE FROM study_tasks` (the dashboard's clear-all). */
    method ClearAll()
      requires Valid()
      modifies this
      ensures Valid()
      ensures tasks == [] && nextId == old(nextId)
    {
      tasks := [];
    }
  }

  /** The checks validate_task_inputs makes, in the order it makes them. */
  datatype TaskRule = SubjectGiven | TopicGiven | NotPastDue

  function RuleIndex(rule: TaskRule): nat {
    match rule
    case SubjectGiven => 0
    case TopicGiven => 1
    case NotPastDue => 2
  }

  predicate RuleHolds(rule: TaskRule, subject: string, topic: string, dueDate: int, today: int) {
    match rule
    case SubjectGiven => !IsBlank(subject)
    case TopicGiven => !IsBlank(topic)
    case NotPastDue => dueDate >= today
  }

  /** validate_task_inputs, with `date.today()` passed in: None when the
      inputs are accepted, otherwise the first rule that fails. */
  function ValidateTaskInputs(subject: string, topic: string, dueDate: int, today: int): (r: Option<TaskRule>)
    ensures r == None <==> forall rule :: RuleHolds(rule, subject, topic, dueDate, today)
    ensures r.Some? ==> !RuleHolds(r.value, subject, topic, dueDate, today)
    ensures r.Some? ==> forall rule :: RuleIndex(rule) < RuleIndex(r.value) ==> RuleHolds(rule, subject, topic, dueDate, today)
  {
    var holds := rule => RuleHolds(rule, subject, topic, dueDate, today);
    if IsBlank(subject) then assert !holds(SubjectGiven); Some(SubjectGiven)
    else if IsBlank(topic) then assert !holds(TopicGiven); Some(TopicGiven)
    else if dueDate < today then assert !holds(NotPastDue); Some(NotPastDue)
    else None
  }

  function ValidateEntry(e: TaskEntry, today: int): Option<TaskRule> {
    ValidateTaskInputs(e.subject, e.topic, e.dueDate, today)
  }

  /** The values the page writes for a form: subject, topic and notes are
      stripped; priority and status come from fixed choices as they are. */
  function Stored(form: TaskEntry): TaskEntry {
    form.(subject := Strip(form.subject), topic := Strip(form.topic), notes := Strip(form.notes))
  }

  /** Saving is stable: storing a stored task changes nothing and the stored
      values pass validation exactly when the form did. */
  lemma StoredIsStable(form: TaskEntry, today: int)
    ensures Stored(Stored(form)) == Stored(form)
    ensures ValidateEntry(Stored(form), today) == ValidateEntry(form, today)
  {
    StripIdempotent(form.subject);
    StripIdempotent(form.topic);
    StripIdempotent(form.notes);
  }

  datatype SaveOutcome = Rejected(rule: TaskRule) | Conflict | Saved

  /** The "Add New Task" form: validate, then insert the stripped values with
      today as CreatedDate. */
  method SubmitTask(table: StudyTaskTable, form: TaskEntry, today: int) returns (out: SaveOutcome)
    requires table.Valid()
    modifies table
    ensures table.Valid()
    ensures ValidateEntry(form, today).Some? ==> out == Rejected(ValidateEntry(form, today).value)
    ensures out != Saved ==> table.tasks == old(table.tasks) && table.nextId == old(table.nextId)
    ensures out == Saved <==> ValidateEntry(form, today) == None && !KeyHeld(old(table.tasks), KeyOf(Stored(form)))
    ensures out == Saved ==> table.tasks == old(table.tasks) + [StudyTask(old(table.nextId), Stored(form), today)]
    ensures out == Saved ==> table.nextId == old(table.nextId) + 1
  {
    var check := ValidateEntry(form, today);
    if check.Some? {
      return Rejected(check.value);
    }
    var ok := table.Insert(Stored(form), today);
    out := if ok then Saved else Conflict;
  }

  /** The edit form: the same validation as the add form (so a past due date
      is refused on edit too), then an update of the six columns. */
  method EditTask(table: StudyTaskTable, id: int, form: TaskEntry, today: int) returns (out: SaveOutcome)
    requires table.Valid()
    modifies table
    ensures table.Valid()
    ensures table.nextId == old(table.nextId)
    ensures ValidateEntry(form, today).Some? ==> out == Rejected(ValidateEntry(form, today).value)
    ensures out != Saved ==> table.tasks == old(table.tasks)
    ensures out == Saved <==> (ValidateEntry(form, today) == None &&
      !(HasId(old(table.tasks), id) && KeyHeldByOther(old(table.tasks), id, KeyOf(Stored(form)))))
    ensures out == Saved ==> table.tasks == WithEntry(old(table.tasks), id, Stored(form))
  {
    var check := ValidateEntry(form, today);
    if check.Some? {
      return Rejected(check.value);
    }
    var ok := table.Update(id, Stored(form));
    out := if ok then Saved else Conflict;
  }

  /** `ORDER BY DueDate ASC, Priority ASC, ID DESC`, Priority compared as
      text: a is listed no later than b. */
  predicate LoadOrder(a: StudyTask, b: StudyTask) {
    || a.entry.dueDate < b.entry.dueDate
    || (a.entry.dueDate == b.entry.dueDate &&
        (StrLt(a.entry.priority, b.entry.priority) ||
         (a.entry.priority == b.entry.priority && a.id >= b.id)))
  }

  lemma LoadOrderIsTotalPreorder()
    ensures IsTotalPreorder(LoadOrder)
  {
    forall a: StudyTask, b: StudyTask ensures LoadOrder(a, b) || LoadOrder(b, a) {
      StrLeTotal(a.entry.priority, b.entry.priority);
    }
    forall a: StudyTask, b: StudyTask, c: StudyTask | LoadOrder(a, b) && LoadOrder(b, c)
      ensures LoadOrder(a, c)
    {
      var p, q, s := a.entry.priority, b.entry.priority, c.entry.priority;
      if a.entry.dueDate == b.entry.dueDate == c.entry.dueDate {
        if StrLt(p, q) && StrLt(q, s) {
          StrLeTransitive(p, q, s);
          if p == s {
            StrLeAntisymmetric(p, q);
          }
        }
      }
    }
  }

  /** Text order puts the three priorities as "High", "Low", "Medium", so
      within one due date a Low task is listed before a Medium one. */
  lemma PriorityTextOrder()
    ensures StrLt("High", "Low") && StrLt("Low", "Medium")
  {
  }

  /** load_study_tasks: every stored task in the load order. */
  function LoadStudyTasks(tasks: seq<StudyTask>): (r: seq<StudyTask>)
    ensures multiset(r) == multiset(tasks)
    ensures SortedBy(r, LoadOrder)
  {
    LoadOrderIsTotalPreorder();
    Sort(tasks, LoadOrder)
  }

  /** highlight_overdue: a task not yet Completed whose due date has passed. */
  predicate IsHighlightedOverdue(t: StudyTask, today: int) {
    t.entry.status != "Completed" && t.entry.dueDate < today
  }

  /** Every task the add or edit form accepted on day `today` was due no
      earlier than that, so it is not highlighted on that day. */
  lemma AcceptedTaskNotOverdue(form: TaskEntry, id: int, createdDate: int, today: int)
    requires ValidateEntry(form, today) == None
    ensures !IsHighlightedOverdue(StudyTask(id, Stored(form), createdDate), today)
  {
    assert RuleHolds(NotPastDue, form.subject, form.topic, form.dueDate, today);
  }

  /** The search box's test on Topic or Notes. */
  predicate SearchHit(t: StudyTask, loweredQuery: string) {
    Contains(Lower(t.entry.topic), loweredQuery) || Contains(Lower(t.entry.notes), loweredQuery)
  }

  /** The task matrix's masks applied in turn: subject, status, then the
      search text when it is not empty. */
  function FilteredTasks(tasks: seq<StudyTask>, subject: Choice<string>, status: Choice<string>, query: string): seq<StudyTask> {
    var bySubject := if subject.All? then tasks else Filter(tasks, (t: StudyTask) => t.entry.subject == subject.value);
    var byStatus := if status.All? then bySubject else Filter(bySubject, (t: StudyTask) => t.entry.status == status.value);
    if query == [] then byStatus else Filter(byStatus, (t: StudyTask) => SearchHit(t, Lower(query)))
  }

  predicate MatchesFilters(t: StudyTask, subject: Choice<string>, status: Choice<string>, query: string) {
    && (subject.All? || t.entry.subject == subject.value)
    && (status.All? || t.entry.status == status.value)
    && (query == [] || SearchHit(t, Lower(query)))
  }

  /** The matrix keeps the loaded order and shows exactly the loaded tasks
      that satisfy every filter that is set. */
  lemma FilteredTasksSpec(tasks: seq<StudyTask>, subject: Choice<string>, status: Choice<string>, query: string)
    ensures IsSubseq(FilteredTasks(tasks, subject, status, query), tasks)
    ensures forall t :: t in FilteredTasks(tasks, subject, status, query) <==> t in tasks && MatchesFilters(t, subject, status, query)
  {
    var bySubject := if subject.All? then tasks else Filter(tasks, (t: StudyTask) => t.entry.subject == subject.value);
    var byStatus := if status.All? then bySubject else Filter(bySubject, (t: StudyTask) => t.entry.status == status.value);
    var view := FilteredTasks(tasks, subject, status, query);
    if subject.All? {
      SubseqReflexive(tasks);
    } else {
      FilterIsSubseq(tasks, (t: StudyTask) => t.entry.subject == subject.value);
    }
    if status.All? {
      SubseqReflexive(bySubject);
    } else {
      FilterIsSubseq(bySubject, (t: StudyTask) => t.entry.status == status.value);
    }
    if query == [] {
      SubseqReflexive(byStatus);
    } else {
      FilterIsSubseq(byStatus, (t: StudyTask) => SearchHit(t, Lower(query)));
    }
    assert view == if query == [] then byStatus else Filter(byStatus, (t: StudyTask) => SearchHit(t, Lower(query)));
    SubseqTransitive(byStatus, bySubject, tasks);
    SubseqTransitive(view, byStatus, tasks);
  }

  predicate IsPending(t: StudyTask) { t.entry.status == "Pending" }
  predicate IsCompleted(t: StudyTask) { t.entry.status == "Completed" }
  predicate NotCompleted(t: StudyTask) { t.entry.status != "Completed" }

  /** The three metrics of the analytics tab. */
  datatype TaskSummary = TaskSummary(total: nat, pending: nat, completed: nat)

  function Summarize(tasks: seq<StudyTask>): TaskSummary {
    TaskSummary(|tasks|, |Filter(tasks, IsPending)|, |Filter(tasks, IsCompleted)|)
  }

  /** A task is at most one of Pending and Completed, so the two counts
      together never exceed the total, and the tasks that are not Completed
      number the total less the completed count. */
  lemma SummaryBounds(tasks: seq<StudyTask>)
    ensures Summarize(tasks).pending + Summarize(tasks).completed <= Summarize(tasks).total
    ensures |Filter(tasks, NotCompleted)| == Summarize(tasks).total - Summarize(tasks).completed
  {
    FilterDisjointCount(tasks, IsPending, IsCompleted);
    FilterComplementCount(tasks, IsCompleted, NotCompleted);
  }

  /** A row of the due-date chart: a task not yet Completed and the days
      left until it is due (negative once it is overdue). */
  datatype UpcomingTask = UpcomingTask(task: StudyTask, daysUntilDue: int)

  function Upcoming(tasks: seq<StudyTask>, today: int): seq<UpcomingTask> {
    var open := Filter(tasks, NotCompleted);
    seq(|open|, i requires 0 <= i < |open| => UpcomingTask(open[i], open[i].entry.dueDate - today))
  }

  /** The tasks a chart shows, top to bottom. */
  function ChartTasks(u: seq<UpcomingTask>): seq<StudyTask> {
    seq(|u|, k requires 0 <= k < |u| => u[k].task)
  }

  /** The chart holds every task that is not Completed, in load order, and
      nothing else; each one's DaysUntilDue is its due date less today, which
      is negative exactly when the task is highlighted overdue. */
  lemma UpcomingSpec(tasks: seq<StudyTask>, today: int)
    ensures var u := Upcoming(tasks, today);
      && (forall t :: t in tasks && NotCompleted(t) <==> exists k :: 0 <= k < |u| && u[k].task == t)
      && IsSubseq(ChartTasks(u), tasks)
      && (forall k :: 0 <= k < |u| ==> u[k].daysUntilDue == u[k].task.entry.dueDate - today)
      && (forall k :: 0 <= k < |u| ==> (u[k].daysUntilDue < 0 <==> IsHighlightedOverdue(u[k].task, today)))
      && |u| == |tasks| - Summarize(tasks).completed
  {
    var open := Filter(tasks, NotCompleted);
    var u := Upcoming(tasks, today);
    forall t ensures t in tasks && NotCompleted(t) <==> exists k :: 0 <= k < |u| && u[k].task == t {
      if t in open {
        var k :| 0 <= k < |open| && open[k] == t;
        assert u[k].task == t;
      }
    }
    assert ChartTasks(u) == open;
    FilterIsSubseq(tasks, NotCompleted);
    SummaryBounds(tasks);
  }
}
