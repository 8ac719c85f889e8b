/** The mock-test logger: the mock_test_results table with its add, delete
    and single-column update helpers, the load that filters, orders and
    coerces the rows and adds the derived columns, and the "Log New
    Assessment" form. */
module MockLog {
  import opened Common
  import opened Sorting
  import opened Text
  import opened Cells

  /** The columns of mock_test_results. */
  const ColumnSet: set<Column> := {
    Id, UserId, AssessmentDate, ExamType, TestName, Domain,
    TotalQuestions, Attempted, Correct, Wrong,
    PhysicsScore, ChemistryScore, MathsScore, BiologyScore,
    TotalScore, MaxScorePossible, Percentile, Rank, TargetScore,
    Difficulty, TimeTakenMinutes, Feedback, NeuralSignature, Timestamp}

  /** The columns the load adds to every row. */
  const DerivedColumns: set<Column> := {PercentageScore, AccuracyQ, Unattempted}

  /** A column of the table: a named column that the load does not derive. */
  predicate InTable(c: Column) {
    !c.Other? && c != PercentageScore && c != AccuracyQ && c != Unattempted
  }

  /** ColumnSet holds exactly the table's columns. */
  lemma ColumnSetIsSchema()
    ensures forall c :: c in ColumnSet <==> InTable(c)
    ensures forall c :: c in DerivedColumns ==> !InTable(c)
  {
    ColumnSetInTable();
    TableColumnsInSet();
    DerivedNotInTable();
  }

  lemma DerivedNotInTable()
    ensures forall c :: c in DerivedColumns ==> !InTable(c)
  {
  }

  lemma ColumnSetInTable()
    ensures forall c :: c in ColumnSet ==> InTable(c)
  {
  }

  lemma TableColumnsInSet()
    ensures forall c :: InTable(c) ==> c in ColumnSet
  {
  }

  /** The columns update_mock_test_result accepts. */
  predicate Allowed(c: Column) {
    match c
    case AssessmentDate | ExamType | TestName | Domain
      | TotalQuestions | Attempted | Correct | Wrong
      | PhysicsScore | ChemistryScore | MathsScore | BiologyScore
      | TotalScore | MaxScorePossible | Percentile | Rank | TargetScore
      | Difficulty | TimeTakenMinutes | Feedback | NeuralSignature => true
    case _ => false
  }

  /** The allow-list is the schema less the primary key, the owner and the
      creation timestamp: those three can never be rewritten by an update,
      and neither can a derived column or an unknown name. */
  lemma AllowListIsSchemaLessKeys()
    ensures forall c :: Allowed(c) <==> InTable(c) && c != Id && c != UserId && c != Timestamp
  {
  }

  /** The user the page logs for, and the signature it stamps on new rows. */
  const UserIdRmj: int := 1
  const NeuralSignatureRmj: string := "rmj"

  function IdOf(row: Row): Value {
    Get(row, Id)
  }

  /** `WHERE id = ?`: the row's key equals the bound parameter; a NULL
      parameter matches nothing. */
  predicate IdMatches(row: Row, testId: Value) {
    testId != Null && IdOf(row) == Adapted(testId)
  }

  predicate HasTestId(rows: seq<Row>, testId: Value) {
    exists i :: 0 <= i < |rows| && IdMatches(rows[i], testId)
  }

  /** The row add_mock_test_result writes: the key from `id` and every
      other table column from the given cells, each passed through the
      driver's parameter adaptation. A column the cells do not give is
      absent, which reads as NULL. */
  function NewRow(id: string, cells: Row): Row {
    (map c | c in cells && InTable(c) && c != Id :: Adapted(cells[c]))[Id := Text(id)]
  }

  /** The added row has only table columns and no date object, the given
      key, and each other table column as given, through the adaptation. */
  lemma NewRowSpec(id: string, cells: Row)
    ensures forall c :: c in NewRow(id, cells) ==> InTable(c) && !NewRow(id, cells)[c].Day?
    ensures Id in NewRow(id, cells) && NewRow(id, cells)[Id] == Text(id)
    ensures forall c :: InTable(c) && c != Id ==> Get(NewRow(id, cells), c) == Adapted(Get(cells, c))
  {
  }

  /** One column of an added row, for a table column other than the key. */
  lemma NewRowCell(id: string, cells: Row, c: Column)
    requires InTable(c) && c != Id
    ensures Get(NewRow(id, cells), c) == Adapted(Get(cells, c))
  {
  }

  /** The columns a new row's stamps and defaults go to. */
  lemma StampedColumnsInSet()
    ensures UserId in ColumnSet && AssessmentDate in ColumnSet && Difficulty in ColumnSet
    ensures NeuralSignature in ColumnSet && Timestamp in ColumnSet
  {
  }

  /** The cell update_mock_test_result writes: a date for assessment_date is
      first formatted with "%Y-%m-%d"; any other value is bound as it is. */
  function WrittenValue(column: Column, value: Value): (w: Value)
    ensures !w.Day?
  {
    if column == AssessmentDate && value.Day? then Text(Strftime(value.d)) else Adapted(value)
  }

  /** A date written into assessment_date is stored as its ISO text (for the
      years from 1000 on, where strftime pads to four digits) whichever way it
      reaches the table, and no column ever stores a date object. */
  lemma WrittenDateIsIsoText(d: Date)
    requires d.year >= 1000
    ensures WrittenValue(AssessmentDate, Day(d)) == Text(IsoFormat(d))
    ensures forall c :: WrittenValue(c, Day(d)) == Text(IsoFormat(d))
  {
    StrftimeAgreesWithIsoFormat(d);
  }

  /** The rows after `UPDATE mock_test_results SET column = w WHERE id = testId`. */
  function WithCell(rows: seq<Row>, testId: Value, column: Column, w: Value): seq<Row> {
    seq(|rows|, i requires 0 <= i < |rows| => if IdMatches(rows[i], testId) then rows[i][column := w] else rows[i])
  }

  /** The rows after `DELETE FROM mock_test_results WHERE id = testId`. */
  function WithoutTest(rows: seq<Row>, testId: Value): seq<Row> {
    Filter(rows, (r: Row) => !IdMatches(r, testId))
  }

  /** An update writes `column` of the matching row only: every other cell
      of it and every other row is left as it was, and an ID that matches no
      row changes nothing. */
  lemma WithCellSpec(rows: seq<Row>, testId: Value, column: Column, w: Value)
    ensures var r := WithCell(rows, testId, column, w);
      && |r| == |rows|
      && (forall i :: 0 <= i < |r| && IdMatches(rows[i], testId) ==>
            r[i][column] == w && forall c :: c in rows[i] && c != column ==> c in r[i] && r[i][c] == rows[i][c])
      && (forall i :: 0 <= i < |r| && !IdMatches(rows[i], testId) ==> r[i] == rows[i])
      && (!HasTestId(rows, testId) ==> r == rows)
  {
  }

  /** A delete removes exactly the matching rows, keeps the rest in order,
      and removes nothing when no row matches. */
  lemma WithoutTestSpec(rows: seq<Row>, testId: Value)
    ensures forall r :: r in WithoutTest(rows, testId) <==> r in rows && !IdMatches(r, testId)
    ensures IsSubseq(WithoutTest(rows, testId), rows)
    ensures !HasTestId(rows, testId) ==> WithoutTest(rows, testId) == rows
  {
    FilterIsSubseq(rows, (r: Row) => !IdMatches(r, testId));
    if !HasTestId(rows, testId) {
      FilterKeepsAll(rows, (r: Row) => !IdMatches(r, testId));
    }
  }

  /** Every row has only the table's columns, a text key that no other row
      has, and no date objects (the driver stores dates as text). */
  ghost predicate TableRows(rows: seq<Row>) {
    && (forall i, c :: 0 <= i < |rows| && c in rows[i] ==> InTable(c))
    && (forall i :: 0 <= i < |rows| ==> Id in rows[i] && rows[i][Id].Text?)
    && (forall i, c :: 0 <= i < |rows| && c in rows[i] ==> !rows[i][c].Day?)
    && DistinctBy(rows, IdOf)
  }

  /** A delete keeps the table well formed. */
  lemma WithoutTestKeepsTable(rows: seq<Row>, testId: Value)
    requires TableRows(rows)
    ensures TableRows(WithoutTest(rows, testId))
  {
    FilterKeepsDistinct(rows, (r: Row) => !IdMatches(r, testId), IdOf);
  }

  /** An allowed update keeps the table well formed: it never touches a key. */
  lemma WithCellKeepsTable(rows: seq<Row>, testId: Value, column: Column, value: Value)
    requires TableRows(rows)
    requires Allowed(column)
    ensures TableRows(WithCell(rows, testId, column, WrittenValue(column, value)))
  {
    AllowListIsSchemaLessKeys();
    var updated := WithCell(rows, testId, column, WrittenValue(column, value));
    assert forall i :: 0 <= i < |rows| ==> IdOf(updated[i]) == IdOf(rows[i]);
  }

  /** Appending a full row under a key no row has keeps the table well
      formed. */
  lemma AppendKeepsTable(rows: seq<Row>, row: Row)
    requires TableRows(rows)
    requires forall c :: c in row ==> InTable(c)
    requires Id in row && row[Id].Text? && !HasTestId(rows, row[Id])
    requires forall c :: c in row ==> !row[c].Day?
    ensures TableRows(rows + [row])
  {
    assert forall i :: 0 <= i < |rows| ==> IdOf(rows[i]) != IdOf(row) by {
      forall i | 0 <= i < |rows| ensures IdOf(rows[i]) != IdOf(row) {
        assert !IdMatches(rows[i], row[Id]);
      }
    }
    var r := rows + [row];
    assert forall i :: 0 <= i < |rows| ==> r[i] == rows[i];
  }

  /** The mock_test_results table. */
  class MockTestTable {
    var rows: seq<Row>

    ghost predicate Valid()
      reads this
    {
      TableRows(rows)
    }

    constructor ()
      ensures Valid()
      ensures rows == []
    {
      rows := [];
    }

    /** add_mock_test_result with the generated ID passed in: the row is
        added unless a row already has that key, in which case the INSERT
        fails and nothing changes. */
    method Add(id: string, cells: Row) returns (ok: bool)
      requires Valid()
      modifies this
      ensures Valid()
      ensures ok <==> !HasTestId(old(rows), Text(id))
      ensures ok ==> rows == old(rows) + [NewRow(id, cells)]
      ensures !ok ==> rows == old(rows)
    {
      if HasTestId(rows, Text(id)) {
        return false;
      }
      NewRowSpec(id, cells);
      AppendKeepsTable(rows, NewRow(id, cells));
      rows := rows + [NewRow(id, cells)];
      ok := true;
    }

    /** delete_mock_test_result: removes the matching row, if any, and
        succeeds. */
    method Delete(testId: Value) returns (ok: bool)
      requires Valid()
      modifies this
      ensures Valid()
      ensures ok
      ensures rows == WithoutTest(old(rows), testId)
    {
      WithoutTestKeepsTable(rows, testId);
      rows := WithoutTest(rows, testId);
      ok := true;
    }

    /** update_mock_test_result: a column outside the allow-list is refused
        before anything is written; otherwise that one column of the
        matching row is set, and the call succeeds even when no row
        matches. */
    method UpdateColumn(testId: Value, column: Column, value: Value) returns (ok: bool)
      requires Valid()
      modifies this
      ensures Valid()
      ensures ok <==> Allowed(column)
      ensures ok ==> rows == WithCell(old(rows), testId, column, WrittenValue(column, value))
      ensures !ok ==> rows == old(rows)
    {
      if !Allowed(column) {
        return false;
      }
      WithCellKeepsTable(rows, testId, column, value);
      rows := WithCell(rows, testId, column, WrittenValue(column, value));
      ok := true;
    }
  }

  /** `pd.to_numeric(col, errors='coerce').fillna(default)`: a number stays,
      a missing cell takes the default. A text cell also takes the default:
      the columns have numeric affinity, so SQLite already stored every text
      that reads as a number as that number. */
  function NumOr(v: Value, default: real): real {
    if v.Num? then v.x else default
  }

  /** `.astype(int)`: truncation toward zero. */
  function Trunc(x: real): (n: int)
    ensures x >= 0.0 ==> 0 <= n && n as real <= x < n as real + 1.0
    ensures x < 0.0 ==> n <= 0 && n as real - 1.0 < x <= n as real
  {
    if x >= 0.0 then x.Floor else -((-x).Floor)
  }

  /** percentage_score: the score as a percentage of the maximum, and 0 when
      the maximum is 0. */
  function ScorePercent(totalScore: real, maxScorePossible: real): real {
    if maxScorePossible == 0.0 then 0.0 else totalScore / maxScorePossible * 100.0
  }

  /** accuracy_q: correct answers as a percentage of those attempted, and 0
      when nothing was attempted. */
  function QuestionAccuracy(correct: int, attempted: int): real {
    if attempted == 0 then 0.0 else correct as real / attempted as real * 100.0
  }

  /** unattempted: questions less attempts. */
  function UnattemptedCount(totalQuestions: int, attempted: int): int {
    totalQuestions - attempted
  }

  /** A score between 0 and a positive maximum is a percentage between 0
      and 100, the full score is exactly 100, and a zero maximum gives 0 for
      any score. */
  lemma ScorePercentBounds(totalScore: real, maxScorePossible: real)
    ensures maxScorePossible == 0.0 ==> ScorePercent(totalScore, maxScorePossible) == 0.0
    ensures 0.0 <= totalScore <= maxScorePossible && maxScorePossible > 0.0 ==>
      0.0 <= ScorePercent(totalScore, maxScorePossible) <= 100.0
    ensures maxScorePossible > 0.0 ==> ScorePercent(maxScorePossible, maxScorePossible) == 100.0
  {
    if 0.0 <= totalScore <= maxScorePossible && maxScorePossible > 0.0 {
      assert totalScore / maxScorePossible <= 1.0;
    }
  }

  /** With a non-zero maximum the percentage is the score scaled by
      100 / maximum: multiplying back by the maximum gives 100 times the
      score, so two scores out of one maximum differ exactly when their
      percentages do. */
  lemma ScorePercentScales(totalScore: real, maxScorePossible: real, otherScore: real)
    requires maxScorePossible != 0.0
    ensures ScorePercent(totalScore, maxScorePossible) * maxScorePossible == 100.0 * totalScore
    ensures ScorePercent(totalScore, maxScorePossible) == ScorePercent(otherScore, maxScorePossible) <==> totalScore == otherScore
  {
    var p := ScorePercent(totalScore, maxScorePossible);
    var q := ScorePercent(otherScore, maxScorePossible);
    assert p * maxScorePossible == 100.0 * totalScore;
    assert q * maxScorePossible == 100.0 * otherScore;
    if p == q {
      assert 100.0 * totalScore == 100.0 * otherScore;
    }
  }

  /** With no more correct answers than attempts the accuracy is a
      percentage, and it is 0 when nothing was attempted. */
  lemma QuestionAccuracyBounds(correct: int, attempted: int)
    ensures attempted == 0 ==> QuestionAccuracy(correct, attempted) == 0.0
    ensures 0 <= correct <= attempted ==> 0.0 <= QuestionAccuracy(correct, attempted) <= 100.0
  {
    if 0 <= correct <= attempted && attempted > 0 {
      assert correct as real / attempted as real <= 1.0;
    }
  }

  /** Attempted and unattempted questions make up the paper. */
  lemma UnattemptedSplitsPaper(totalQuestions: int, attempted: int)
    ensures attempted + UnattemptedCount(totalQuestions, attempted) == totalQuestions
    ensures 0 <= attempted <= totalQuestions ==> 0 <= UnattemptedCount(totalQuestions, attempted) <= totalQuestions
  {
  }

  /** How load_mock_test_results coerces one numeric column: the value that
      fills a missing cell, and whether the column is then cast to int. */
  datatype Coercion = Coercion(fill: real, truncate: bool)

  /** The columns the load coerces and how; None for a column left as it is. */
  function CoercionFor(c: Column): Option<Coercion> {
    match c
    case TotalScore | TimeTakenMinutes => Some(Coercion(0.0, false))
    case MaxScorePossible => Some(Coercion(100.0, false))
    case TotalQuestions | Attempted | Correct | Wrong | Rank => Some(Coercion(0.0, true))
    case PhysicsScore | ChemistryScore | MathsScore | BiologyScore => Some(Coercion(0.0, false))
    case Percentile | TargetScore => Some(Coercion(0.0, false))
    case _ => None
  }

  /** The coerced columns. SELECT * returns every column, a missing cell
      as NULL, so each of these is present in a loaded row. */
  const CoercedSet: set<Column> := {TotalScore, TimeTakenMinutes, MaxScorePossible, TotalQuestions, Attempted,
    Correct, Wrong, Rank, PhysicsScore, ChemistryScore, MathsScore, BiologyScore, Percentile, TargetScore}

  lemma CoercedSetSpec()
    ensures forall c :: c in CoercedSet <==> CoercionFor(c).Some?
  {
  }

  /** One cell after coercion. */
  function CoercedCell(c: Column, v: Value): Value {
    match CoercionFor(c)
    case None => v
    case Some(k) =>
      var x := NumOr(v, k.fill);
      Num(if k.truncate then Trunc(x) as real else x)
  }

  /** The number a coerced column holds in a loaded row. */
  function CoercedNumber(row: Row, c: Column): real
    requires CoercionFor(c).Some?
  {
    CoercedCell(c, Get(row, c)).x
  }

  /** One row as load_mock_test_results returns it: the numeric columns
      coerced, then the three derived columns computed from the coerced
      values. */
  function LoadedRow(row: Row): Row {
    var coerced := map c | c in row.Keys + CoercedSet :: CoercedCell(c, Get(row, c));
    var total := CoercedNumber(row, TotalScore);
    var maxScore := CoercedNumber(row, MaxScorePossible);
    var questions := CoercedNumber(row, TotalQuestions).Floor;
    var attempted := CoercedNumber(row, Attempted).Floor;
    var correct := CoercedNumber(row, Correct).Floor;
    coerced[PercentageScore := Num(ScorePercent(total, maxScore))]
           [AccuracyQ := Num(QuestionAccuracy(correct, attempted))]
           [Unattempted := Num(UnattemptedCount(questions, attempted) as real)]
  }

  /** A coerced column holds a number: a missing cell reads as the fill
      value, a number in a float column is kept, and an int column holds a
      whole number. Other columns are left as they are. */
  lemma CoercedCellSpec(c: Column, v: Value)
    ensures CoercionFor(c).None? ==> CoercedCell(c, v) == v
    ensures CoercionFor(c).Some? ==> CoercedCell(c, v).Num?
    ensures CoercionFor(c).Some? && v == Null ==> CoercedCell(c, v) == Num(CoercionFor(c).value.fill)
    ensures CoercionFor(c).Some? && CoercionFor(c).value.truncate ==> CoercedCell(c, v).x == CoercedCell(c, v).x.Floor as real
    ensures CoercionFor(c).Some? && v.Num? && !CoercionFor(c).value.truncate ==> CoercedCell(c, v) == v
  {
  }

  /** Only table columns are coerced, and not the key, owner, date, names,
      difficulty, feedback, signature or timestamp; a missing maximum reads
      as 100 and every other missing number as 0. */
  lemma CoercedColumns()
    ensures forall c :: CoercionFor(c).Some? ==> InTable(c)
    ensures forall c :: c in {Id, UserId, AssessmentDate, ExamType, TestName, Domain, Difficulty, Feedback, NeuralSignature, Timestamp} ==>
      CoercionFor(c).None?
    ensures forall c :: CoercionFor(c).Some? ==> (CoercionFor(c).value.fill == 100.0 <==> c == MaxScorePossible)
  {
  }

  /** A loaded row has every column of the stored row, each cell coerced;
      the derived columns follow from the coerced cells, so a row with
      neither score nor maximum is at 0 percent and one with no attempts at
      0 accuracy. */
  lemma LoadedRowSpec(row: Row)
    ensures var r := LoadedRow(row);
      && (forall c :: c in row ==> c in r)
      && (forall c :: c in row && c !in DerivedColumns ==> r[c] == CoercedCell(c, row[c]))
      && (forall c :: CoercionFor(c).Some? ==> c in r && r[c] == CoercedCell(c, Get(row, c)))
      && r[PercentageScore] == Num(ScorePercent(CoercedNumber(row, TotalScore), CoercedNumber(row, MaxScorePossible)))
      && r[AccuracyQ] == Num(QuestionAccuracy(CoercedNumber(row, Correct).Floor, CoercedNumber(row, Attempted).Floor))
      && r[Unattempted] == Num((CoercedNumber(row, TotalQuestions).Floor - CoercedNumber(row, Attempted).Floor) as real)
      && (Get(row, TotalScore) == Null && Get(row, MaxScorePossible) == Null ==> r[PercentageScore] == Num(0.0))
      && (Get(row, Attempted) == Null ==> r[AccuracyQ] == Num(0.0))
  {
    LoadedRowCells(row);
    LoadedRowCoerced(row);
    LoadedRowDerived(row);
  }

  lemma LoadedRowCells(row: Row)
    ensures forall c :: c in row ==> c in LoadedRow(row)
    ensures forall c :: c in row && c !in DerivedColumns ==> LoadedRow(row)[c] == CoercedCell(c, row[c])
  {
  }

  lemma LoadedRowCoerced(row: Row)
    ensures forall c :: CoercionFor(c).Some? ==> c in LoadedRow(row) && LoadedRow(row)[c] == CoercedCell(c, Get(row, c))
  {
    forall c | CoercionFor(c).Some?
      ensures c in LoadedRow(row) && LoadedRow(row)[c] == CoercedCell(c, Get(row, c))
    {
      CoercedSetSpec();
      assert c in CoercedSet;
      assert c !in DerivedColumns;
    }
  }

  lemma LoadedRowDerived(row: Row)
    ensures var r := LoadedRow(row);
      && r[PercentageScore] == Num(ScorePercent(CoercedNumber(row, TotalScore), CoercedNumber(row, MaxScorePossible)))
      && r[AccuracyQ] == Num(QuestionAccuracy(CoercedNumber(row, Correct).Floor, CoercedNumber(row, Attempted).Floor))
      && r[Unattempted] == Num((CoercedNumber(row, TotalQuestions).Floor - CoercedNumber(row, Attempted).Floor) as real)
      && (Get(row, TotalScore) == Null && Get(row, MaxScorePossible) == Null ==> r[PercentageScore] == Num(0.0))
      && (Get(row, Attempted) == Null ==> r[AccuracyQ] == Num(0.0))
  {
  }

  /** The load leaves the key, owner and assessment date as stored. */
  lemma LoadedRowKeeps(row: Row)
    ensures IdOf(LoadedRow(row)) == IdOf(row)
    ensures Get(LoadedRow(row), UserId) == Get(row, UserId)
    ensures Get(LoadedRow(row), AssessmentDate) == Get(row, AssessmentDate)
  {
  }

  /** `if user_id:` selects the WHERE clause: None and 0 load every row. */
  predicate UserSelected(row: Row, userId: Option<int>) {
    userId.None? || userId.value == 0 || Get(row, UserId) == Num(userId.value as real)
  }

  /** `ORDER BY assessment_date DESC`: a is listed no later than b. */
  predicate LaterDateFirst(a: Row, b: Row) {
    SqlLe(Get(b, AssessmentDate), Get(a, AssessmentDate))
  }

  lemma LaterDateFirstIsTotalPreorder()
    ensures IsTotalPreorder(LaterDateFirst)
  {
    SqlLeIsTotalPreorder();
  }

  /** The rows the query returns, in the query's order. */
  function SelectedRows(rows: seq<Row>, userId: Option<int>): (r: seq<Row>)
    ensures multiset(r) == multiset(Filter(rows, (x: Row) => UserSelected(x, userId)))
    ensures SortedBy(r, LaterDateFirst)
  {
    LaterDateFirstIsTotalPreorder();
    Sort(Filter(rows, (x: Row) => UserSelected(x, userId)), LaterDateFirst)
  }

  /** load_mock_test_results. */
  function LoadMockTestResults(rows: seq<Row>, userId: Option<int>): seq<Row> {
    var s := SelectedRows(rows, userId);
    seq(|s|, i requires 0 <= i < |s| => LoadedRow(s[i]))
  }

  /** The query returns exactly the stored rows of the selected user, each
      once, and every row when no user is given. */
  lemma SelectedRowsSpec(rows: seq<Row>, userId: Option<int>)
    ensures var s := SelectedRows(rows, userId);
      && (forall x :: x in s <==> x in rows && UserSelected(x, userId))
      && (userId.None? ==> |s| == |rows|)
  {
    var s := SelectedRows(rows, userId);
    forall x | x in s ensures x in rows && UserSelected(x, userId) {
      assert x in multiset(s);
    }
    forall x | x in rows && UserSelected(x, userId) ensures x in s {
      assert x in multiset(Filter(rows, (y: Row) => UserSelected(y, userId)));
    }
    if userId.None? {
      FilterKeepsAll(rows, (y: Row) => UserSelected(y, userId));
      assert |s| == |multiset(s)|;
    }
  }

  /** The load returns one row per stored row of the selected user (every
      row when no user is given), each with its cells coerced and the
      derived columns added. */
  lemma LoadMockTestResultsSpec(rows: seq<Row>, userId: Option<int>)
    ensures var s := SelectedRows(rows, userId);
      var r := LoadMockTestResults(rows, userId);
      && |r| == |s|
      && (forall i :: 0 <= i < |r| ==> r[i] == LoadedRow(s[i]) && s[i] in rows && UserSelected(s[i], userId))
      && (forall x :: x in rows && UserSelected(x, userId) ==> x in s)
      && (userId.None? ==> |r| == |rows|)
  {
    SelectedRowsSpec(rows, userId);
    var s := SelectedRows(rows, userId);
    assert forall i :: 0 <= i < |s| ==> s[i] in s;
  }

  /** The loaded rows are listed latest assessment date first. */
  lemma LoadMockTestResultsOrder(rows: seq<Row>, userId: Option<int>)
    ensures SortedBy(LoadMockTestResults(rows, userId), LaterDateFirst)
  {
    var s := SelectedRows(rows, userId);
    var r := LoadMockTestResults(rows, userId);
    forall i, j | 0 <= i < j < |r| ensures LaterDateFirst(r[i], r[j]) {
      LoadedRowKeeps(s[i]);
      LoadedRowKeeps(s[j]);
      assert LaterDateFirst(s[i], s[j]);
    }
  }

  /** The checks of the "Log New Assessment" form, in order. */
  datatype MockRule = TestNameGiven | ScoreWithinMax

  function RuleIndex(rule: MockRule): nat {
    match rule
    case TestNameGiven => 0
    case ScoreWithinMax => 1
  }

  /** The test name is checked with `not test_name`, so only the empty name
      fails; unlike the other pages the text is not stripped. */
  predicate RuleHolds(rule: MockRule, testName: string, totalScore: int, maxScorePossible: int) {
    match rule
    case TestNameGiven => testName != []
    case ScoreWithinMax => totalScore <= maxScorePossible
  }

  /** The form's checks: None when the assessment is recorded, otherwise the
      first check that fails. */
  function CheckMockForm(testName: string, totalScore: int, maxScorePossible: int): (r: Option<MockRule>)
    ensures r == None <==> forall rule :: RuleHolds(rule, testName, totalScore, maxScorePossible)
    ensures r.Some? ==> !RuleHolds(r.value, testName, totalScore, maxScorePossible)
    ensures r.Some? ==> forall rule :: RuleIndex(rule) < RuleIndex(r.value) ==> RuleHolds(rule, testName, totalScore, maxScorePossible)
  {
    if testName == [] then assert !RuleHolds(TestNameGiven, testName, totalScore, maxScorePossible); Some(TestNameGiven)
    else if totalScore > maxScorePossible then assert !RuleHolds(ScoreWithinMax, testName, totalScore, maxScorePossible); Some(ScoreWithinMax)
    else None
  }

  /** A name of spaces only is accepted by this form, where the planner and
      the DPP logger would refuse it as blank. */
  lemma SpacesOnlyNameAccepted()
    ensures CheckMockForm(" ", 0, 1) == None
    ensures IsBlank(" ")
  {
    assert IsSpace(' ');
  }

  /** The values of the "Log New Assessment" form. */
  datatype MockForm = MockForm(
    assessmentDate: Date, examType: string, testName: string, domain: string,
    totalQuestions: int, attempted: int, correct: int, wrong: int,
    physicsScore: real, chemistryScore: real, mathsScore: real, biologyScore: real,
    totalScore: int, maxScorePossible: int, percentile: real, rank: int, targetScore: real,
    difficulty: string, timeTakenMinutes: int, feedback: string)

  /** The cell the form passes to add_mock_test_result for column c: the
      page's user, the date as formatted by the page, the form's values, the
      page's neural signature and the submission time. */
  function FormCell(f: MockForm, dateText: string, now: string, c: Column): Value {
    match c
    case UserId => Num(UserIdRmj as real)
    case AssessmentDate => Text(dateText)
    case ExamType => Text(f.examType)
    case TestName => Text(f.testName)
    case Domain => Text(f.domain)
    case TotalQuestions => Num(f.totalQuestions as real)
    case Attempted => Num(f.attempted as real)
    case Correct => Num(f.correct as real)
    case Wrong => Num(f.wrong as real)
    case PhysicsScore => Num(f.physicsScore)
    case ChemistryScore => Num(f.chemistryScore)
    case MathsScore => Num(f.mathsScore)
    case BiologyScore => Num(f.biologyScore)
    case TotalScore => Num(f.totalScore as real)
    case MaxScorePossible => Num(f.maxScorePossible as real)
    case Percentile => Num(f.percentile)
    case Rank => Num(f.rank as real)
    case TargetScore => Num(f.targetScore)
    case Difficulty => Text(f.difficulty)
    case TimeTakenMinutes => Num(f.timeTakenMinutes as real)
    case Feedback => Text(f.feedback)
    case NeuralSignature => Text(NeuralSignatureRmj)
    case Timestamp => Text(now)
    case _ => Null
  }

  /** The cells of every table column but the key. */
  function FormCells(f: MockForm, dateText: string, now: string): Row {
    map c | c in ColumnSet && c != Id :: FormCell(f, dateText, now, c)
  }

  /** A recorded row holds the fresh key, and in every other table column
      what the form gave for it, through the adaptation; it has no other
      column. */
  lemma RecordedCell(f: MockForm, dateText: string, id: string, now: string, c: Column)
    ensures Get(NewRow(id, FormCells(f, dateText, now)), c) ==
      if c == Id then Text(id) else if InTable(c) then Adapted(FormCell(f, dateText, now, c)) else Null
  {
    ColumnSetIsSchema();
    NewRowSpec(id, FormCells(f, dateText, now));
  }

  datatype RecordOutcome = Refused(rule: MockRule) | AddFailed | Recorded

  /** Submitting the form: the checks first, then the add under the freshly
      generated ID. */
  method RecordAssessment(table: MockTestTable, f: MockForm, freshId: string, now: string) returns (out: RecordOutcome)
    requires table.Valid()
    modifies table
    ensures table.Valid()
    ensures CheckMockForm(f.testName, f.totalScore, f.maxScorePossible).Some? ==>
      out == Refused(CheckMockForm(f.testName, f.totalScore, f.maxScorePossible).value)
    ensures out != Recorded ==> table.rows == old(table.rows)
    ensures out == Recorded <==> CheckMockForm(f.testName, f.totalScore, f.maxScorePossible) == None && !HasTestId(old(table.rows), Text(freshId))
    ensures out == Recorded ==> table.rows == old(table.rows) + [NewRow(freshId, FormCells(f, Strftime(f.assessmentDate), now))]
  {
    var check := CheckMockForm(f.testName, f.totalScore, f.maxScorePossible);
    if check.Some? {
      return Refused(check.value);
    }
    var ok := table.Add(freshId, FormCells(f, Strftime(f.assessmentDate), now));
    out := if ok then Recorded else AddFailed;
  }

  /** A recorded assessment belongs to the page's user and carries the
      page's signature and the submission time, whatever the form says. */
  lemma RecordedRowSpec(f: MockForm, dateText: string, id: string, now: string)
    ensures var r := NewRow(id, FormCells(f, dateText, now));
      && Get(r, UserId) == Num(1.0)
      && Get(r, NeuralSignature) == Text("rmj")
      && Get(r, Timestamp) == Text(now)
  {
    var cells := FormCells(f, dateText, now);
    StampedColumnsInSet();
    FormCellsAt(f, dateText, now, UserId);
    FormCellsAt(f, dateText, now, NeuralSignature);
    FormCellsAt(f, dateText, now, Timestamp);
    NewRowCell(id, cells, UserId);
    NewRowCell(id, cells, NeuralSignature);
    NewRowCell(id, cells, Timestamp);
  }

  /** One column of the form's cells. */
  lemma FormCellsAt(f: MockForm, dateText: string, now: string, c: Column)
    requires c in ColumnSet && c != Id
    ensures Get(FormCells(f, dateText, now), c) == FormCell(f, dateText, now, c)
  {
  }

  /** The recorded date column holds the text the page formatted. */
  lemma RecordedDateText(f: MockForm, dateText: string, id: string, now: string)
    ensures Get(NewRow(id, FormCells(f, dateText, now)), AssessmentDate) == Text(dateText)
  {
    StampedColumnsInSet();
    FormCellsAt(f, dateText, now, AssessmentDate);
    NewRowCell(id, FormCells(f, dateText, now), AssessmentDate);
  }

  /** The page stores the date as strftime writes it, which from the year
      1000 on is the ISO text that orders chronologically. */
  lemma RecordedDate(f: MockForm, id: string, now: string)
    requires f.assessmentDate.year >= 1000
    ensures Get(NewRow(id, FormCells(f, Strftime(f.assessmentDate), now)), AssessmentDate) == Text(IsoFormat(f.assessmentDate))
  {
    RecordedDateText(f, Strftime(f.assessmentDate), id, now);
    StrftimeAgreesWithIsoFormat(f.assessmentDate);
  }
}
