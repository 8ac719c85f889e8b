/** The DPP (daily practice problem) logger page: the dpp_log table with its
    insert, update and delete helpers, the input validator, the submit and
    edit flows, the history view with its filters and search, and the
    subject-wise analytics. */
module DppLogger {
  import opened Common
  import opened Sorting
  import opened Text

  /** The eight columns a DPP entry writes, in INSERT order. Date is the day
      number of the calendar date the page stores as "YYYY-MM-DD" text;
      those texts sort exactly as the day numbers do. */
  datatype DppEntry = DppEntry(
    date: int, subject: string, chapter: string, dppNumber: string,
    score: int, accuracy: int, timeTaken: int, notes: string)

  /** A stored row: its AUTOINCREMENT ID and its entry. */
  datatype DppLog = DppLog(id: int, entry: DppEntry)

  /** The columns of UNIQUE(Date, Subject, Chapter, DPP_Number). */
  datatype DppKey = DppKey(date: int, subject: string, chapter: string, dppNumber: string)

  function KeyOf(e: DppEntry): DppKey {
    DppKey(e.date, e.subject, e.chapter, e.dppNumber)
  }

  function LogKey(r: DppLog): DppKey {
    KeyOf(r.entry)
  }

  function LogId(r: DppLog): int {
    r.id
  }

  predicate HasId(rows: seq<DppLog>, id: int) {
    exists i :: 0 <= i < |rows| && rows[i].id == id
  }

  /** Some stored row already holds key k. */
  predicate KeyHeld(rows: seq<DppLog>, k: DppKey) {
    exists i :: 0 <= i < |rows| && LogKey(rows[i]) == k
  }

  /** A row other than the one with ID id holds key k. */
  predicate KeyHeldByOther(rows: seq<DppLog>, id: int, k: DppKey) {
    exists i :: 0 <= i < |rows| && rows[i].id != id && LogKey(rows[i]) == k
  }

  /** The rows after `UPDATE ... WHERE ID = id` has set the eight columns to e. */
  function WithEntry(rows: seq<DppLog>, id: int, e: DppEntry): seq<DppLog> {
    seq(|rows|, i requires 0 <= i < |rows| => if rows[i].id == id then DppLog(id, e) else rows[i])
  }

  /** The rows after `DELETE ... WHERE ID = id`. */
  function WithoutId(rows: seq<DppLog>, id: int): seq<DppLog> {
    Filter(rows, (r: DppLog) => r.id != id)
  }

  /** An UPDATE naming no stored ID matches nothing and changes nothing. */
  lemma WithEntryMissingId(rows: seq<DppLog>, id: int, e: DppEntry)
    requires !HasId(rows, id)
    ensures WithEntry(rows, id, e) == rows
  {
    forall i | 0 <= i < |rows| ensures WithEntry(rows, id, e)[i] == rows[i] {
      assert rows[i].id != id;
    }
  }

  /** A DELETE removes exactly the rows with that ID, keeps the others in
      order, and removes nothing when no row has that ID. */
  lemma WithoutIdSpec(rows: seq<DppLog>, id: int)
    ensures forall r :: r in WithoutId(rows, id) <==> r in rows && r.id != id
    ensures IsSubseq(WithoutId(rows, id), rows)
    ensures !HasId(rows, id) ==> WithoutId(rows, id) == rows
  {
    FilterIsSubseq(rows, (r: DppLog) => r.id != id);
    if !HasId(rows, id) {
      FilterKeepsAll(rows, (r: DppLog) => r.id != id);
    }
  }

  /** The dpp_log table: its rows in storage order and the next value the
      AUTOINCREMENT sequence hands out. */
  class DppLogTable {
    var rows: seq<DppLog>
    var nextId: int

    /** The ID and the UNIQUE key are each held by at most one row, and every
        ID was handed out before nextId. */
    ghost predicate Valid()
      reads this
    {
      && DistinctBy(rows, LogId)
      && DistinctBy(rows, LogKey)
      && 1 <= nextId
      && forall i :: 0 <= i < |rows| ==> 1 <= rows[i].id < nextId
    }

    /** CREATE TABLE: no rows, and the first ID will be 1. */
    constructor ()
      ensures Valid()
      ensures rows == [] && nextId == 1
    {
      rows := [];
      nextId := 1;
    }

    /** insert_dpp_log: the row is added under a fresh ID unless its key is
        already held, in which case the IntegrityError leaves the table, its
        ID sequence included, as it was. */
    method Insert(e: DppEntry) returns (ok: bool)
      requires Valid()
      modifies this
      ensures Valid()
      ensures ok <==> !KeyHeld(old(rows), KeyOf(e))
      ensures ok ==> rows == old(rows) + [DppLog(old(nextId), e)] && nextId == old(nextId) + 1
      ensures !ok ==> rows == old(rows) && nextId == old(nextId)
    {
      if KeyHeld(rows, KeyOf(e)) {
        return false;
      }
      var row := DppLog(nextId, e);
      assert forall i :: 0 <= i < |rows| ==> LogKey(rows[i]) != LogKey(row);
      rows := rows + [row];
      nextId := nextId + 1;
      ok := true;
    }

    /** update_dpp_log: all eight columns of row id are replaced and its ID
        kept; the update fails without change when another row holds the new
        key. An ID that matches no row updates nothing and still succeeds. */
    method Update(id: int, e: DppEntry) returns (ok: bool)
      requires Valid()
      modifies this
      ensures Valid()
      ensures ok <==> !(HasId(old(rows), id) && KeyHeldByOther(old(rows), id, KeyOf(e)))
      ensures ok ==> rows == WithEntry(old(rows), id, e)
      ensures !ok ==> rows == old(rows)
      ensures nextId == old(nextId)
    {
      if HasId(rows, id) && KeyHeldByOther(rows, id, KeyOf(e)) {
        return false;
      }
      var updated := WithEntry(rows, id, e);
      forall i, j | 0 <= i < j < |updated| ensures LogKey(updated[i]) != LogKey(updated[j]) {
        if rows[i].id == id {
          assert rows[j].id != id;
        } else if rows[j].id == id {
          assert rows[i].id != id;
        }
      }
      rows := updated;
      ok := true;
    }

    /** delete_dpp_log: removes the row with that ID, if any, and succeeds. */
    method Delete(id: int) returns (ok: bool)
      requires Valid()
      modifies this
      ensures Valid()
      ensures ok
      ensures rows == WithoutId(old(rows), id)
      ensures nextId == old(nextId)
    {
      FilterKeepsDistinct(rows, (r: DppLog) => r.id != id, LogId);
      FilterKeepsDistinct(rows, (r: DppLog) => r.id != id, LogKey);
      rows := WithoutId(rows, id);
      ok := true;
    }

    /** `DELETE FROM dpp_log` (the dashboard's clear-all): every row goes and
        the AUTOINCREMENT sequence keeps counting from where it was. */
    method ClearAll()
      requires Valid()
      modifies this
      ensures Valid()
      ensures rows == [] && nextId == old(nextId)
    {
      rows := [];
    }
  }

  /** The checks validate_dpp_inputs makes, in the order it makes them. */
  datatype DppRule = ChapterGiven | DppNumberGiven | ScoreInRange | AccuracyInRange | TimePositive

  function RuleIndex(rule: DppRule): nat {
    match rule
    case ChapterGiven => 0
    case DppNumberGiven => 1
    case ScoreInRange => 2
    case AccuracyInRange => 3
    case TimePositive => 4
  }

  predicate RuleHolds(rule: DppRule, score: int, accuracy: int, timeTaken: int, chapter: string, dppNumber: string) {
    match rule
    case ChapterGiven => !IsBlank(chapter)
    case DppNumberGiven => !IsBlank(dppNumber)
    case ScoreInRange => 0 <= score <= 100
    case AccuracyInRange => 0 <= accuracy <= 100
    case TimePositive => timeTaken > 0
  }

  /** validate_dpp_inputs: None when the inputs are accepted; otherwise the
      first rule that fails, the only one whose error the page shows. */
  function ValidateDppInputs(score: int, accuracy: int, timeTaken: int, chapter: string, dppNumber: string): (r: Option<DppRule>)
    ensures r == None <==> forall rule :: RuleHolds(rule, score, accuracy, timeTaken, chapter, dppNumber)
    ensures r.Some? ==> !RuleHolds(r.value, score, accuracy, timeTaken, chapter, dppNumber)
    ensures r.Some? ==> forall rule :: RuleIndex(rule) < RuleIndex(r.value) ==> RuleHolds(rule, score, accuracy, timeTaken, chapter, dppNumber)
  {
    var holds := rule => RuleHolds(rule, score, accuracy, timeTaken, chapter, dppNumber);
    if IsBlank(chapter) then assert !holds(ChapterGiven); Some(ChapterGiven)
    else if IsBlank(dppNumber) then assert !holds(DppNumberGiven); Some(DppNumberGiven)
    else if !(0 <= score <= 100) then assert !holds(ScoreInRange); Some(ScoreInRange)
    else if !(0 <= accuracy <= 100) then assert !holds(AccuracyInRange); Some(AccuracyInRange)
    else if timeTaken <= 0 then assert !holds(TimePositive); Some(TimePositive)
    else None
  }

  function ValidateEntry(e: DppEntry): Option<DppRule> {
    ValidateDppInputs(e.score, e.accuracy, e.timeTaken, e.chapter, e.dppNumber)
  }

  /** The tuple the page writes for the form's values: the text fields are
      stripped (the date becomes its ISO text, which the day number stands
      for). */
  function Stored(form: DppEntry): DppEntry {
    form.(subject := Strip(form.subject), chapter := Strip(form.chapter),
          dppNumber := Strip(form.dppNumber), notes := Strip(form.notes))
  }

  /** Saving is stable: a stored entry is stored unchanged when it is edited
      and saved again, and it passes validation exactly when the form it came
      from did. */
  lemma StoredIsStable(form: DppEntry)
    ensures Stored(Stored(form)) == Stored(form)
    ensures ValidateEntry(Stored(form)) == ValidateEntry(form)
  {
    StripIdempotent(form.subject);
    StripIdempotent(form.chapter);
    StripIdempotent(form.dppNumber);
    StripIdempotent(form.notes);
  }

  /** What the page reports after a submit or an edit. */
  datatype SaveOutcome = Rejected(rule: DppRule) | Conflict | Saved

  /** The "Log New DPP" form: validate, then insert the stripped values. */
  method SubmitDpp(table: DppLogTable, form: DppEntry) returns (out: SaveOutcome)
    requires table.Valid()
    modifies table
    ensures table.Valid()
    ensures ValidateEntry(form).Some? ==> out == Rejected(ValidateEntry(form).value)
    ensures out.Rejected? || out == Conflict ==> table.rows == old(table.rows) && table.nextId == old(table.nextId)
    ensures ValidateEntry(form) == None ==>
      (out == Conflict <==> KeyHeld(old(table.rows), KeyOf(Stored(form))))
    ensures out == Saved <==> ValidateEntry(form) == None && !KeyHeld(old(table.rows), KeyOf(Stored(form)))
    ensures out == Saved ==> table.rows == old(table.rows) + [DppLog(old(table.nextId), Stored(form))]
    ensures out == Saved ==> table.nextId == old(table.nextId) + 1
  {
    var check := ValidateEntry(form);
    if check.Some? {
      return Rejected(check.value);
    }
    var ok := table.Insert(Stored(form));
    out := if ok then Saved else Conflict;
  }

  /** The edit form: validate, then update row id with the stripped values. */
  method EditDpp(table: DppLogTable, id: int, form: DppEntry) returns (out: SaveOutcome)
    requires table.Valid()
    modifies table
    ensures table.Valid()
    ensures table.nextId == old(table.nextId)
    ensures ValidateEntry(form).Some? ==> out == Rejected(ValidateEntry(form).value)
    ensures out != Saved ==> table.rows == old(table.rows)
    ensures out == Saved <==> (ValidateEntry(form) == None &&
      !(HasId(old(table.rows), id) && KeyHeldByOther(old(table.rows), id, KeyOf(Stored(form)))))
    ensures out == Saved ==> table.rows == WithEntry(old(table.rows), id, Stored(form))
  {
    var check := ValidateEntry(form);
    if check.Some? {
      return Rejected(check.value);
    }
    var ok := table.Update(id, Stored(form));
    out := if ok then Saved else Conflict;
  }

  /** `ORDER BY Date DESC, ID DESC`: a is listed no later than b. */
  predicate NewestFirst(a: DppLog, b: DppLog) {
    a.entry.date > b.entry.date || (a.entry.date == b.entry.date && a.id >= b.id)
  }

  lemma NewestFirstIsTotalPreorder()
    ensures IsTotalPreorder(NewestFirst)
  {
  }

  /** load_dpp_logs: every stored row, newest date first and, within a date,
      the most recently inserted first. */
  function LoadDppLogs(rows: seq<DppLog>): (r: seq<DppLog>)
    ensures multiset(r) == multiset(rows)
    ensures SortedBy(r, NewestFirst)
  {
    NewestFirstIsTotalPreorder();
    Sort(rows, NewestFirst)
  }

  /** With unique IDs the load order is strict: no two loaded rows tie. */
  lemma LoadOrderIsStrict(rows: seq<DppLog>)
    requires DistinctBy(rows, LogId)
    ensures var r := LoadDppLogs(rows);
      forall i, j :: 0 <= i < j < |r| ==>
        r[i].entry.date > r[j].entry.date || (r[i].entry.date == r[j].entry.date && r[i].id > r[j].id)
  {
    var r := LoadDppLogs(rows);
    DistinctByPermutation(rows, r, LogId);
    forall i, j | 0 <= i < j < |r|
      ensures r[i].entry.date > r[j].entry.date || (r[i].entry.date == r[j].entry.date && r[i].id > r[j].id)
    {
      assert NewestFirst(r[i], r[j]);
      assert LogId(r[i]) != LogId(r[j]);
    }
  }

  /** The search box's test: the lowered query occurs in the lowered
      Chapter, DPP_Number or Notes. */
  predicate SearchHit(x: DppLog, loweredQuery: string) {
    || Contains(Lower(x.entry.chapter), loweredQuery)
    || Contains(Lower(x.entry.dppNumber), loweredQuery)
    || Contains(Lower(x.entry.notes), loweredQuery)
  }

  /** The history tab's masks applied in turn: subject, date, then the search
      text when it is not empty. */
  function FilteredView(logs: seq<DppLog>, subject: Choice<string>, date: Choice<int>, query: string): seq<DppLog> {
    var bySubject := if subject.All? then logs else Filter(logs, (x: DppLog) => x.entry.subject == subject.value);
    var byDate := if date.All? then bySubject else Filter(bySubject, (x: DppLog) => x.entry.date == date.value);
    if query == [] then byDate else Filter(byDate, (x: DppLog) => SearchHit(x, Lower(query)))
  }

  /** The row satisfies every filter that is set. */
  predicate MatchesFilters(x: DppLog, subject: Choice<string>, date: Choice<int>, query: string) {
    && (subject.All? || x.entry.subject == subject.value)
    && (date.All? || x.entry.date == date.value)
    && (query == [] || SearchHit(x, Lower(query)))
  }

  /** The view keeps the loaded order, and a row is shown exactly when it
      is loaded and satisfies every filter that is set. */
  lemma FilteredViewSpec(logs: seq<DppLog>, subject: Choice<string>, date: Choice<int>, query: string)
    ensures IsSubseq(FilteredView(logs, subject, date, query), logs)
    ensures forall x :: x in FilteredView(logs, subject, date, query) <==> x in logs && MatchesFilters(x, subject, date, query)
  {
    var bySubject := if subject.All? then logs else Filter(logs, (x: DppLog) => x.entry.subject == subject.value);
    var byDate := if date.All? then bySubject else Filter(bySubject, (x: DppLog) => x.entry.date == date.value);
    var view := FilteredView(logs, subject, date, query);
    if subject.All? {
      SubseqReflexive(logs);
    } else {
      FilterIsSubseq(logs, (x: DppLog) => x.entry.subject == subject.value);
    }
    if date.All? {
      SubseqReflexive(bySubject);
    } else {
      FilterIsSubseq(bySubject, (x: DppLog) => x.entry.date == date.value);
    }
    if query == [] {
      SubseqReflexive(byDate);
    } else {
      FilterIsSubseq(byDate, (x: DppLog) => SearchHit(x, Lower(query)));
    }
    assert view == if query == [] then byDate else Filter(byDate, (x: DppLog) => SearchHit(x, Lower(query)));
    SubseqTransitive(byDate, bySubject, logs);
    SubseqTransitive(view, byDate, logs);
  }

  /** One row of the subject-wise breakdown. */
  datatype SubjectPerformance = SubjectPerformance(
    subject: string, avgScore: real, avgAccuracy: real, totalDpps: int, avgTimeTaken: real)

  function ScoreOf(r: DppLog): int { r.entry.score }
  function AccuracyOf(r: DppLog): int { r.entry.accuracy }
  function TimeTakenOf(r: DppLog): int { r.entry.timeTaken }
  function SubjectOf(g: SubjectPerformance): string { g.subject }
  function TotalDppsOf(g: SubjectPerformance): int { g.totalDpps }

  /** The column mean `df[col].mean()` of a non-empty group. */
  function Mean(rows: seq<DppLog>, f: DppLog -> int): real
    requires rows != []
  {
    SumOf(rows, f) as real / |rows| as real
  }

  predicate HasSubject(rows: seq<DppLog>, s: string) {
    exists i :: 0 <= i < |rows| && rows[i].entry.subject == s
  }

  /** The group of one subject, in row order. */
  function OfSubject(rows: seq<DppLog>, s: string): (g: seq<DppLog>)
    ensures HasSubject(rows, s) ==> g != []
  {
    var g := Filter(rows, (x: DppLog) => x.entry.subject == s);
    if HasSubject(rows, s) then
      var i :| 0 <= i < |rows| && rows[i].entry.subject == s;
      assert rows[i] in g;
      g
    else g
  }

  /** The distinct subjects of the rows, each once. */
  function Subjects(rows: seq<DppLog>): (ks: seq<string>)
    ensures forall i :: 0 <= i < |rows| ==> rows[i].entry.subject in ks
    ensures forall k :: 0 <= k < |ks| ==> HasSubject(rows, ks[k])
    ensures forall k, m :: 0 <= k < m < |ks| ==> ks[k] != ks[m]
  {
    if rows == [] then []
    else
      var rest := Subjects(rows[1..]);
      assert forall k :: 0 <= k < |rest| ==> HasSubject(rows, rest[k]) by {
        forall k | 0 <= k < |rest| ensures HasSubject(rows, rest[k]) {
          var i :| 0 <= i < |rows[1..]| && rows[1..][i].entry.subject == rest[k];
          assert rows[i + 1].entry.subject == rest[k];
        }
      }
      assert forall i :: 1 <= i < |rows| ==> rows[i].entry.subject in rest by {
        forall i | 1 <= i < |rows| ensures rows[i].entry.subject in rest {
          assert rows[i] == rows[1..][i - 1];
        }
      }
      if rows[0].entry.subject in rest then rest
      else [rows[0].entry.subject] + rest
  }

  /** The aggregates of one subject's group. */
  function Aggregate(rows: seq<DppLog>, s: string): SubjectPerformance
    requires HasSubject(rows, s)
  {
    var g := OfSubject(rows, s);
    SubjectPerformance(s, Mean(g, ScoreOf), Mean(g, AccuracyOf), |g|, Mean(g, TimeTakenOf))
  }

  /** One aggregate per subject in ks, in the order of ks. */
  function GroupOver(ks: seq<string>, rows: seq<DppLog>): (gs: seq<SubjectPerformance>)
    requires forall k :: 0 <= k < |ks| ==> HasSubject(rows, ks[k])
    ensures |gs| == |ks|
    ensures forall k :: 0 <= k < |ks| ==> gs[k] == Aggregate(rows, ks[k])
  {
    if ks == [] then [] else [Aggregate(rows, ks[0])] + GroupOver(ks[1..], rows)
  }

  /** `groupby('Subject').agg(...)`: one aggregate per subject. */
  function GroupBySubject(rows: seq<DppLog>): seq<SubjectPerformance> {
    GroupOver(Subjects(rows), rows)
  }

  /** The breakdown's order: a higher average accuracy first. */
  predicate MoreAccurate(a: SubjectPerformance, b: SubjectPerformance) {
    a.avgAccuracy >= b.avgAccuracy
  }

  /** `.sort_values(by="Avg_Accuracy", ascending=False)`. No stability is
      assumed, so subjects with equal accuracy may come in any order. */
  function SubjectBreakdown(rows: seq<DppLog>): (r: seq<SubjectPerformance>)
    ensures multiset(r) == multiset(GroupBySubject(rows))
    ensures SortedBy(r, MoreAccurate)
  {
    assert IsTotalPreorder(MoreAccurate);
    Sort(GroupBySubject(rows), MoreAccurate)
  }

  /** The number of rows whose subject is among ks, counted group by group. */
  function CountOver(ks: seq<string>, rows: seq<DppLog>): int {
    if ks == [] then 0 else |OfSubject(rows, ks[0])| + CountOver(ks[1..], rows)
  }

  lemma {:induction false} GroupCountsAreCountOver(ks: seq<string>, rows: seq<DppLog>)
    requires forall k :: 0 <= k < |ks| ==> HasSubject(rows, ks[k])
    ensures SumOf(GroupOver(ks, rows), TotalDppsOf) == CountOver(ks, rows)
  {
    if ks != [] {
      var gs := GroupOver(ks, rows);
      assert gs[1..] == GroupOver(ks[1..], rows);
      GroupCountsAreCountOver(ks[1..], rows);
    }
  }

  lemma {:induction false} CountOverNoRows(ks: seq<string>)
    ensures CountOver(ks, []) == 0
  {
    if ks != [] {
      CountOverNoRows(ks[1..]);
    }
  }

  /** One more row adds one to the count of its own subject and nothing to
      any other. */
  lemma {:induction false} CountOverCons(ks: seq<string>, x: DppLog, rows: seq<DppLog>)
    requires forall k, m :: 0 <= k < m < |ks| ==> ks[k] != ks[m]
    ensures CountOver(ks, [x] + rows) == CountOver(ks, rows) + (if x.entry.subject in ks then 1 else 0)
  {
    if ks != [] {
      var s := ks[0];
      assert ([x] + rows)[1..] == rows;
      assert |OfSubject([x] + rows, s)| == |OfSubject(rows, s)| + (if x.entry.subject == s then 1 else 0);
      CountOverCons(ks[1..], x, rows);
      if x.entry.subject == s {
        forall m | 0 <= m < |ks[1..]| ensures ks[1..][m] != s {
          assert ks[1..][m] == ks[m + 1];
        }
      }
      assert x.entry.subject in ks <==> x.entry.subject == s || x.entry.subject in ks[1..];
    }
  }

  /** Distinct groups that cover every subject count every row once. */
  lemma {:induction false} CountOverAll(ks: seq<string>, rows: seq<DppLog>)
    requires forall k, m :: 0 <= k < m < |ks| ==> ks[k] != ks[m]
    requires forall i :: 0 <= i < |rows| ==> rows[i].entry.subject in ks
    ensures CountOver(ks, rows) == |rows|
  {
    if rows == [] {
      CountOverNoRows(ks);
    } else {
      assert rows == [rows[0]] + rows[1..];
      assert forall i :: 0 <= i < |rows[1..]| ==> rows[1..][i] == rows[i + 1];
      CountOverAll(ks, rows[1..]);
      CountOverCons(ks, rows[0], rows[1..]);
    }
  }

  lemma {:induction false} GroupOverSubjects(ks: seq<string>, rows: seq<DppLog>)
    requires forall k :: 0 <= k < |ks| ==> HasSubject(rows, ks[k])
    requires forall k, m :: 0 <= k < m < |ks| ==> ks[k] != ks[m]
    ensures DistinctBy(GroupOver(ks, rows), SubjectOf)
  {
  }

  /** The subject-wise breakdown has one row per subject that occurs, each
      row holding that subject's count and mean score, accuracy and time;
      the counts add up to the number of logged DPPs; and the rows are in
      descending order of average accuracy. */
  lemma SubjectBreakdownSpec(rows: seq<DppLog>)
    ensures var r := SubjectBreakdown(rows);
      && (forall i :: 0 <= i < |rows| ==> exists k :: 0 <= k < |r| && r[k].subject == rows[i].entry.subject)
      && (forall k :: 0 <= k < |r| ==> HasSubject(rows, r[k].subject) && r[k] == Aggregate(rows, r[k].subject))
      && DistinctBy(r, SubjectOf)
      && SumOf(r, TotalDppsOf) == |rows|
      && SortedBy(r, MoreAccurate)
  {
    PermutedGroupsSpec(rows, SubjectBreakdown(rows));
  }

  /** Any reordering of the groups has one row per subject that occurs, each
      holding that subject's aggregates, and its counts add up to the number
      of rows. */
  lemma PermutedGroupsSpec(rows: seq<DppLog>, r: seq<SubjectPerformance>)
    requires multiset(r) == multiset(GroupBySubject(rows))
    ensures forall i :: 0 <= i < |rows| ==> exists k :: 0 <= k < |r| && r[k].subject == rows[i].entry.subject
    ensures forall k :: 0 <= k < |r| ==> HasSubject(rows, r[k].subject) && r[k] == Aggregate(rows, r[k].subject)
    ensures DistinctBy(r, SubjectOf)
    ensures SumOf(r, TotalDppsOf) == |rows|
  {
    PermutedGroupsCover(rows, r);
    PermutedGroupsCount(rows, r);
  }

  lemma PermutedGroupsCover(rows: seq<DppLog>, r: seq<SubjectPerformance>)
    requires multiset(r) == multiset(GroupBySubject(rows))
    ensures forall i :: 0 <= i < |rows| ==> exists k :: 0 <= k < |r| && r[k].subject == rows[i].entry.subject
    ensures forall k :: 0 <= k < |r| ==> HasSubject(rows, r[k].subject) && r[k] == Aggregate(rows, r[k].subject)
  {
    var ks := Subjects(rows);
    var gs := GroupBySubject(rows);
    forall i | 0 <= i < |rows| ensures exists k :: 0 <= k < |r| && r[k].subject == rows[i].entry.subject {
      var m :| 0 <= m < |ks| && ks[m] == rows[i].entry.subject;
      assert gs[m] in multiset(r);
      var k :| 0 <= k < |r| && r[k] == gs[m];
    }
    forall k | 0 <= k < |r| ensures HasSubject(rows, r[k].subject) && r[k] == Aggregate(rows, r[k].subject) {
      assert r[k] in multiset(gs);
      var m :| 0 <= m < |gs| && gs[m] == r[k];
    }
  }

  lemma PermutedGroupsCount(rows: seq<DppLog>, r: seq<SubjectPerformance>)
    requires multiset(r) == multiset(GroupBySubject(rows))
    ensures DistinctBy(r, SubjectOf)
    ensures SumOf(r, TotalDppsOf) == |rows|
  {
    var ks := Subjects(rows);
    var gs := GroupBySubject(rows);
    GroupOverSubjects(ks, rows);
    DistinctByPermutation(gs, r, SubjectOf);
    GroupCountsAreCountOver(ks, rows);
    CountOverAll(ks, rows);
    SumOfPermutation(gs, r, TotalDppsOf);
  }

  /** The four metrics above the charts: mean score, mean accuracy, mean time
      and the number of DPPs logged. */
  datatype OverallSummary = OverallSummary(avgScore: real, avgAccuracy: real, avgTimeTaken: real, totalDpps: int)

  function Overall(rows: seq<DppLog>): OverallSummary
    requires rows != []
  {
    OverallSummary(Mean(rows, ScoreOf), Mean(rows, AccuracyOf), Mean(rows, TimeTakenOf), |rows|)
  }

  /** The overall total is the sum of the per-subject totals. */
  lemma OverallAgreesWithBreakdown(rows: seq<DppLog>)
    requires rows != []
    ensures Overall(rows).totalDpps == SumOf(SubjectBreakdown(rows), TotalDppsOf)
  {
    SubjectBreakdownSpec(rows);
  }
}
