/** The "Manage Historical Data Matrix" tab of the mock-test logger: the
    edited grid is compared with a fresh load of the table, which gives the
    keys to delete and the rows to update or add, and the commit applies
    them through the table's helpers while counting successes. */
module MockGrid {
  import opened Common
  import opened Cells
  import opened MockLog

  /** The columns the comparison skips and the commit never writes back:
      the key, the owner, the signature, the creation time and the three
      derived columns. */
  predicate Excluded(c: Column) {
    || c == Id || c == UserId || c == NeuralSignature || c == Timestamp
    || c == PercentageScore || c == AccuracyQ || c == Unattempted
  }

  /** `.astype(str)` on assessment_date, which both frames get before the
      comparison: a date becomes its ISO text, a missing value the text
      "None", and a text stays as it is. */
  function DateAsText(v: Value): Value {
    match v
    case Null => Text("None")
    case Day(d) => Text(IsoFormat(d))
    case _ => v
  }

  /** A grid row with its date column converted to text. */
  function WithDateAsText(row: Row): Row {
    if AssessmentDate in row then row[AssessmentDate := DateAsText(row[AssessmentDate])] else row
  }

  /** Every row of a frame converted. */
  function DatesAsText(rows: seq<Row>): seq<Row> {
    seq(|rows|, i requires 0 <= i < |rows| => WithDateAsText(rows[i]))
  }

  /** After the conversion the date column is never missing and never a
      date object: a date reads as its ISO text, a missing one as "None",
      and a text is kept. */
  lemma DateAsTextSpec(v: Value)
    ensures DateAsText(v) != Null && !DateAsText(v).Day?
    ensures v.Text? ==> DateAsText(v) == v
    ensures v.Day? ==> DateAsText(v) == Text(IsoFormat(v.d))
    ensures v == Null ==> DateAsText(v) == Text("None")
  {
  }

  /** `row_id in current_df_from_db['id'].values`. */
  predicate HasId(rows: seq<Row>, v: Value) {
    exists k :: 0 <= k < |rows| && IdOf(rows[k]) == v
  }

  /** `current_df_from_db[current_df_from_db['id'] == row_id].iloc[0]`: the
      first row with that key. */
  function FirstWithId(rows: seq<Row>, v: Value): (r: Row)
    requires HasId(rows, v)
    ensures r in rows && IdOf(r) == v
  {
    if IdOf(rows[0]) == v then rows[0]
    else
      var k :| 0 <= k < |rows| && IdOf(rows[k]) == v;
      assert 0 <= k - 1 < |rows[1..]| && IdOf(rows[1..][k - 1]) == v;
      FirstWithId(rows[1..], v)
  }

  /** When keys are distinct, the row found for a row's key is that row. */
  lemma FirstWithIdOfDistinct(rows: seq<Row>, k: int)
    requires DistinctBy(rows, IdOf)
    requires 0 <= k < |rows|
    ensures HasId(rows, IdOf(rows[k]))
    ensures FirstWithId(rows, IdOf(rows[k])) == rows[k]
  {
    var r := FirstWithId(rows, IdOf(rows[k]));
    var j :| 0 <= j < |rows| && rows[j] == r;
    assert IdOf(rows[j]) == IdOf(rows[k]);
  }

  /** `current_df_from_db[~current_df_from_db['id'].isin(edited_df['id'])]['id'].tolist()`. */
  function DeletedIds(current: seq<Row>, edited: seq<Row>): seq<Value> {
    var gone := Filter(current, (r: Row) => !HasId(edited, IdOf(r)));
    seq(|gone|, i requires 0 <= i < |gone| => IdOf(gone[i]))
  }

  /** The keys to delete are exactly the stored keys the edited grid no
      longer has, so a grid that keeps every row deletes nothing. */
  lemma DeletedIdsSpec(current: seq<Row>, edited: seq<Row>)
    ensures forall v :: v in DeletedIds(current, edited) <==> HasId(current, v) && !HasId(edited, v)
    ensures (forall k :: 0 <= k < |current| ==> HasId(edited, IdOf(current[k]))) ==> DeletedIds(current, edited) == []
  {
    var gone := Filter(current, (r: Row) => !HasId(edited, IdOf(r)));
    var ids := DeletedIds(current, edited);
    forall v | v in ids ensures HasId(current, v) && !HasId(edited, v) {
      var i :| 0 <= i < |ids| && ids[i] == v;
      assert gone[i] in gone;
      var k :| 0 <= k < |current| && current[k] == gone[i];
      assert IdOf(current[k]) == v;
    }
    forall v | HasId(current, v) && !HasId(edited, v) ensures v in ids {
      var k :| 0 <= k < |current| && IdOf(current[k]) == v;
      assert current[k] in gone;
      var i :| 0 <= i < |gone| && gone[i] == current[k];
      assert ids[i] == v;
    }
    if forall k :: 0 <= k < |current| ==> HasId(edited, IdOf(current[k])) {
      if gone != [] {
        assert gone[0] in current;
      }
    }
  }

  /** The comparison of a stored row with its edited copy: some compared
      column of the stored row differs. Two missing cells are equal, as
      the check with pd.isna on both sides makes them, and a missing cell
      differs from any present one. */
  predicate Changed(original: Row, edited: Row) {
    exists c :: c in original && !Excluded(c) && Get(edited, c) != original[c]
  }

  /** The loop over `original_row.index` with its `changed` flag: it stops
      at the first compared column whose cells differ. */
  method RowChanged(original: Row, edited: Row) returns (changed: bool)
    ensures changed <==> Changed(original, edited)
  {
    changed := false;
    var remaining := original.Keys;
    while remaining != {}
      invariant remaining <= original.Keys
      invariant forall c :: c in original && c !in remaining && !Excluded(c) ==> Get(edited, c) == original[c]
      decreases remaining
    {
      var col :| col in remaining;
      remaining := remaining - {col};
      if Excluded(col) {
        continue;
      }
      var valEdited, valOriginal := Get(edited, col), original[col];
      if valEdited == Null && valOriginal == Null {
        continue;
      }
      if valEdited != valOriginal {
        changed := true;
        break;
      }
    }
  }

  /** An edited row is queued when its key is not stored (a new row), or
      when it differs from the stored row with its key. */
  predicate IsQueued(current: seq<Row>, row: Row) {
    !HasId(current, IdOf(row)) || Changed(FirstWithId(current, IdOf(row)), row)
  }

  /** `updated_or_added_rows`. */
  function Queued(current: seq<Row>, edited: seq<Row>): seq<Row> {
    Filter(edited, (r: Row) => IsQueued(current, r))
  }

  /** One more grid row is queued or not on its own. */
  lemma QueuedSnoc(current: seq<Row>, edited: seq<Row>, row: Row)
    ensures Queued(current, edited + [row]) == Queued(current, edited) + (if IsQueued(current, row) then [row] else [])
  {
    FilterConcat(edited, [row], (r: Row) => IsQueued(current, r));
  }

  /** The loop over `edited_df.iterrows()` that builds `updated_or_added_rows`. */
  method Reconcile(current: seq<Row>, edited: seq<Row>) returns (queued: seq<Row>)
    ensures queued == Queued(current, edited)
  {
    queued := [];
    var i := 0;
    while i < |edited|
      invariant 0 <= i <= |edited|
      invariant queued == Queued(current, edited[..i])
    {
      var row := edited[i];
      if HasId(current, IdOf(row)) {
        var originalRow := FirstWithId(current, IdOf(row));
        var changed := RowChanged(originalRow, row);
        if changed {
          queued := queued + [row];
        }
      } else {
        queued := queued + [row];
      }
      assert edited[..i + 1] == edited[..i] + [row];
      QueuedSnoc(current, edited[..i], row);
      i := i + 1;
    }
    assert edited[..i] == edited;
  }

  /** A grid that shows the loaded rows in their order, with their keys
      and with the same compared cells, queues nothing and deletes
      nothing, provided the loaded keys are distinct. */
  lemma UnchangedGridCommitsNothing(current: seq<Row>, edited: seq<Row>)
    requires DistinctBy(current, IdOf)
    requires |edited| == |current|
    requires forall i :: 0 <= i < |current| ==> IdOf(edited[i]) == IdOf(current[i])
    requires forall i, c :: 0 <= i < |current| && c in current[i] && !Excluded(c) ==> Get(edited[i], c) == current[i][c]
    ensures Queued(current, edited) == []
    ensures DeletedIds(current, edited) == []
  {
    var q := Queued(current, edited);
    if q != [] {
      assert q[0] in edited;
      var k :| 0 <= k < |edited| && edited[k] == q[0];
      FirstWithIdOfDistinct(current, k);
      assert false;
    }
    forall k | 0 <= k < |current| ensures HasId(edited, IdOf(current[k])) {
      assert IdOf(edited[k]) == IdOf(current[k]);
    }
    DeletedIdsSpec(current, edited);
  }

  /** A grid row that is a stored row with one compared cell changed is
      queued. */
  lemma EditedCellIsQueued(current: seq<Row>, k: int, c: Column, v: Value)
    requires DistinctBy(current, IdOf)
    requires 0 <= k < |current|
    requires c in current[k] && !Excluded(c) && v != current[k][c]
    ensures IsQueued(current, current[k][c := v])
  {
    var edited := current[k][c := v];
    assert IdOf(edited) == IdOf(current[k]);
    FirstWithIdOfDistinct(current, k);
    assert Get(edited, c) != current[k][c];
  }

  /** The deletes of the commit, one after another. */
  function AfterDeletes(rows: seq<Row>, ids: seq<Value>): seq<Row>
    decreases |ids|
  {
    if ids == [] then rows
    else WithoutTest(AfterDeletes(rows, ids[..|ids| - 1]), ids[|ids| - 1])
  }

  /** Some listed key matches the row. */
  predicate Listed(row: Row, ids: seq<Value>) {
    exists j :: 0 <= j < |ids| && IdMatches(row, ids[j])
  }

  /** The deletes remove exactly the rows whose key is listed and keep the
      others in their order. */
  lemma {:induction false} AfterDeletesSpec(rows: seq<Row>, ids: seq<Value>)
    ensures forall r :: r in AfterDeletes(rows, ids) <==> r in rows && !Listed(r, ids)
    ensures IsSubseq(AfterDeletes(rows, ids), rows)
    decreases |ids|
  {
    if ids == [] {
      SubseqReflexive(rows);
    } else {
      var n := |ids| - 1;
      var before := AfterDeletes(rows, ids[..n]);
      AfterDeletesSpec(rows, ids[..n]);
      WithoutTestSpec(before, ids[n]);
      SubseqTransitive(AfterDeletes(rows, ids), before, rows);
      forall r ensures Listed(r, ids) <==> Listed(r, ids[..n]) || IdMatches(r, ids[n]) {
        if Listed(r, ids) {
          var j :| 0 <= j < |ids| && IdMatches(r, ids[j]);
          if j < n {
            assert ids[..n][j] == ids[j];
          }
        }
        if Listed(r, ids[..n]) {
          var j :| 0 <= j < n && IdMatches(r, ids[..n][j]);
          assert ids[j] == ids[..n][j];
        }
      }
    }
  }

  /** The cells one queued existing row writes back: every column of the
      edited row among `cols` that is not excluded and that the allow-list
      accepts, each as update_mock_test_result stores it. */
  function Patch(edited: Row, cols: set<Column>): Row {
    map c | c in edited && c in cols && !Excluded(c) && Allowed(c) :: WrittenValue(c, edited[c])
  }

  /** The table after the updates of one existing row for the columns in
      `cols`. */
  function EditRows(rows: seq<Row>, testId: Value, edited: Row, cols: set<Column>): seq<Row> {
    seq(|rows|, i requires 0 <= i < |rows| => if IdMatches(rows[i], testId) then rows[i] + Patch(edited, cols) else rows[i])
  }

  /** Writing back never touches the key, owner, signature or creation time
      of any row, nor any row with another key; the matching row gets every
      written-back column of the edited row and keeps its other cells. */
  lemma EditRowsSpec(rows: seq<Row>, testId: Value, edited: Row)
    ensures var r := EditRows(rows, testId, edited, edited.Keys);
      && |r| == |rows|
      && (forall i, c :: 0 <= i < |r| && Excluded(c) ==> Get(r[i], c) == Get(rows[i], c))
      && (forall i :: 0 <= i < |r| && !IdMatches(rows[i], testId) ==> r[i] == rows[i])
      && (forall i, c :: 0 <= i < |r| && IdMatches(rows[i], testId) && c in edited && !Excluded(c) && Allowed(c) ==>
            Get(r[i], c) == WrittenValue(c, edited[c]))
      && (forall i, c :: 0 <= i < |r| && IdMatches(rows[i], testId) && !(c in edited && Allowed(c)) ==>
            Get(r[i], c) == Get(rows[i], c))
  {
    var r := EditRows(rows, testId, edited, edited.Keys);
    forall i, c | 0 <= i < |r| && IdMatches(rows[i], testId)
      ensures c in edited && !Excluded(c) && Allowed(c) ==> Get(r[i], c) == WrittenValue(c, edited[c])
      ensures !(c in edited && !Excluded(c) && Allowed(c)) ==> Get(r[i], c) == Get(rows[i], c)
    {
      PatchedCell(rows[i], edited, c);
    }
  }

  /** One cell of a written-back row. */
  lemma PatchedCell(row: Row, edited: Row, c: Column)
    ensures c in edited && !Excluded(c) && Allowed(c) ==> Get(row + Patch(edited, edited.Keys), c) == WrittenValue(c, edited[c])
    ensures !(c in edited && !Excluded(c) && Allowed(c)) ==> Get(row + Patch(edited, edited.Keys), c) == Get(row, c)
  {
  }

  /** Nothing written back yet. */
  lemma EditRowsNone(rows: seq<Row>, testId: Value, edited: Row)
    ensures EditRows(rows, testId, edited, {}) == rows
  {
    assert Patch(edited, {}) == map[];
    forall i | 0 <= i < |rows| ensures EditRows(rows, testId, edited, {})[i] == rows[i] {
      assert rows[i] + map[] == rows[i];
    }
  }

  /** One more patched column of one row. */
  lemma PatchStep(r: Row, edited: Row, done: set<Column>, c: Column)
    requires c in edited && c !in done && !Excluded(c) && Allowed(c)
    ensures (r + Patch(edited, done))[c := WrittenValue(c, edited[c])] == r + Patch(edited, done + {c})
  {
    assert Patch(edited, done + {c}) == Patch(edited, done)[c := WrittenValue(c, edited[c])];
  }

  /** One more column written back: an update through the helper when the
      column is compared and allowed, and nothing otherwise. */
  lemma EditRowsStep(rows: seq<Row>, testId: Value, edited: Row, done: set<Column>, c: Column)
    requires c in edited && c !in done
    ensures !Excluded(c) && Allowed(c) ==>
      WithCell(EditRows(rows, testId, edited, done), testId, c, WrittenValue(c, edited[c])) == EditRows(rows, testId, edited, done + {c})
    ensures !(!Excluded(c) && Allowed(c)) ==>
      EditRows(rows, testId, edited, done) == EditRows(rows, testId, edited, done + {c})
  {
    var before := EditRows(rows, testId, edited, done);
    var after := EditRows(rows, testId, edited, done + {c});
    if !Excluded(c) && Allowed(c) {
      var updated := WithCell(before, testId, c, WrittenValue(c, edited[c]));
      forall i | 0 <= i < |rows| ensures updated[i] == after[i] {
        assert IdOf(before[i]) == IdOf(rows[i]);
        if IdMatches(rows[i], testId) {
          PatchStep(rows[i], edited, done, c);
        }
      }
    } else {
      assert Patch(edited, done + {c}) == Patch(edited, done);
    }
  }

  /** The inner loop of the commit for an existing row: every column of
      the edited row that is not excluded goes through
      update_mock_test_result, whose result is ignored. */
  method WriteBack(table: MockTestTable, row: Row)
    requires table.Valid()
    modifies table
    ensures table.Valid()
    ensures table.rows == EditRows(old(table.rows), IdOf(row), row, row.Keys)
  {
    ghost var before := table.rows;
    EditRowsNone(before, IdOf(row), row);
    var remaining := row.Keys;
    ghost var done: set<Column> := {};
    while remaining != {}
      invariant done + remaining == row.Keys && done !! remaining
      invariant table.Valid()
      invariant table.rows == EditRows(before, IdOf(row), row, done)
      decreases remaining
    {
      var col :| col in remaining;
      EditRowsStep(before, IdOf(row), row, done, col);
      if !Excluded(col) {
        var written := table.UpdateColumn(IdOf(row), col, row[col]);
      }
      remaining := remaining - {col};
      done := done + {col};
    }
  }

  /** `col in row_data and pd.notna(row_data[col])`. */
  predicate Present(row: Row, c: Column) {
    c in row && row[c] != Null
  }

  /** A new grid row is added only when the date, exam type, test name,
      domain, score and maximum are all given. */
  predicate Complete(row: Row) {
    && Present(row, AssessmentDate) && Present(row, ExamType) && Present(row, TestName)
    && Present(row, Domain) && Present(row, TotalScore) && Present(row, MaxScorePossible)
  }

  /** Because the dates are turned into text before the commit, a new row
      whose date was left empty carries the text "None" and passes the
      completeness test on its other five cells alone. */
  lemma MissingDatePassesCompleteness(row: Row)
    requires AssessmentDate in row && row[AssessmentDate] == Null
    ensures Get(WithDateAsText(row), AssessmentDate) == Text("None")
    ensures Complete(WithDateAsText(row)) <==>
      Present(row, ExamType) && Present(row, TestName) && Present(row, Domain)
      && Present(row, TotalScore) && Present(row, MaxScorePossible)
  {
  }

  /** The date of a new grid row, formatted with "%Y-%m-%d" when it is a
      date object. */
  function GridDate(v: Value): Value {
    if v.Day? then Text(Strftime(v.d)) else v
  }

  /** The cell the commit passes to add_mock_test_result for column c of a
      new grid row: the page's user, the six required cells as given, each
      optional cell or its default when the row lacks the column, the
      page's signature and the commit time. */
  function GridCell(row: Row, now: string, c: Column): Value {
    match c
    case UserId => Num(UserIdRmj as real)
    case AssessmentDate => GridDate(Get(row, AssessmentDate))
    case ExamType | TestName | Domain | TotalScore | MaxScorePossible => Get(row, c)
    case TotalQuestions | Attempted | Correct | Wrong | Rank | TimeTakenMinutes => GetOr(row, c, Num(0.0))
    case PhysicsScore | ChemistryScore | MathsScore | BiologyScore | Percentile | TargetScore => GetOr(row, c, Num(0.0))
    case Difficulty => GetOr(row, c, Text("Medium"))
    case Feedback => GetOr(row, c, Text(""))
    case NeuralSignature => Text(NeuralSignatureRmj)
    case Timestamp => Text(now)
    case _ => Null
  }

  /** The cells of every table column but the key. */
  function GridCells(row: Row, now: string): Row {
    map c | c in ColumnSet && c != Id :: GridCell(row, now, c)
  }

  /** The cells a grid row cannot choose, and the difficulty default. */
  lemma GridCellStamps(row: Row, now: string)
    ensures GridCell(row, now, UserId) == Num(1.0)
    ensures GridCell(row, now, NeuralSignature) == Text("rmj")
    ensures GridCell(row, now, Timestamp) == Text(now)
    ensures Difficulty !in row ==> GridCell(row, now, Difficulty) == Text("Medium")
  {
  }

  /** One column of a grid row's cells. */
  lemma GridCellsAt(row: Row, now: string, c: Column)
    requires c in ColumnSet && c != Id
    ensures Get(GridCells(row, now), c) == GridCell(row, now, c)
  {
  }

  /** A row added from the grid belongs to the page's user and carries the
      page's signature and the commit time, whatever the grid row says;
      a difficulty the row lacks is "Medium". */
  lemma GridRowSpec(row: Row, id: string, now: string)
    ensures var r := NewRow(id, GridCells(row, now));
      && Get(r, UserId) == Num(1.0)
      && Get(r, NeuralSignature) == Text("rmj")
      && Get(r, Timestamp) == Text(now)
      && (Difficulty !in row ==> Get(r, Difficulty) == Text("Medium"))
  {
    var cells := GridCells(row, now);
    StampedColumnsInSet();
    GridCellStamps(row, now);
    GridCellsAt(row, now, UserId);
    GridCellsAt(row, now, NeuralSignature);
    GridCellsAt(row, now, Timestamp);
    GridCellsAt(row, now, Difficulty);
    NewRowCell(id, cells, UserId);
    NewRowCell(id, cells, NeuralSignature);
    NewRowCell(id, cells, Timestamp);
    NewRowCell(id, cells, Difficulty);
  }

  /** What committing one queued row does to the table: an existing row is
      written back, a complete new row is added under its fresh key, and
      an incomplete one is skipped. */
  function CommitRow(rows: seq<Row>, current: seq<Row>, row: Row, id: string, now: string): seq<Row> {
    if HasId(current, IdOf(row)) then EditRows(rows, IdOf(row), row, row.Keys)
    else if Complete(row) && !HasTestId(rows, Text(id)) then rows + [NewRow(id, GridCells(row, now))]
    else rows
  }

  /** What committing one queued row adds to `success_count`: 1 for an
      existing row whatever the updates returned, 1 for a new row the add
      accepted, and 0 otherwise. */
  function CommitRowCount(rows: seq<Row>, current: seq<Row>, row: Row, id: string): nat {
    if HasId(current, IdOf(row)) then 1
    else if Complete(row) && !HasTestId(rows, Text(id)) then 1
    else 0
  }

  /** The table after committing the queued rows in order, the i-th new row
      under the i-th fresh key. */
  function AfterQueued(rows: seq<Row>, current: seq<Row>, queued: seq<Row>, ids: seq<string>, now: string): seq<Row>
    requires |ids| == |queued|
    decreases |queued|
  {
    if queued == [] then rows
    else
      var n := |queued| - 1;
      CommitRow(AfterQueued(rows, current, queued[..n], ids[..n], now), current, queued[n], ids[n], now)
  }

  /** The successes counted while committing the queued rows. */
  function QueuedCount(rows: seq<Row>, current: seq<Row>, queued: seq<Row>, ids: seq<string>, now: string): nat
    requires |ids| == |queued|
    decreases |queued|
  {
    if queued == [] then 0
    else
      var n := |queued| - 1;
      QueuedCount(rows, current, queued[..n], ids[..n], now)
        + CommitRowCount(AfterQueued(rows, current, queued[..n], ids[..n], now), current, queued[n], ids[n])
  }

  /** The queued rows whose key is stored. */
  function Existing(current: seq<Row>, queued: seq<Row>): seq<Row> {
    Filter(queued, (r: Row) => HasId(current, IdOf(r)))
  }

  /** Every queued existing row counts once, and no queued row counts more
      than once. */
  lemma {:induction false} QueuedCountBounds(rows: seq<Row>, current: seq<Row>, queued: seq<Row>, ids: seq<string>, now: string)
    requires |ids| == |queued|
    ensures |Existing(current, queued)| <= QueuedCount(rows, current, queued, ids, now) <= |queued|
    decreases |queued|
  {
    if queued != [] {
      var n := |queued| - 1;
      QueuedCountBounds(rows, current, queued[..n], ids[..n], now);
      assert queued == queued[..n] + [queued[n]];
      FilterConcat(queued[..n], [queued[n]], (r: Row) => HasId(current, IdOf(r)));
    }
  }

  /** One more queued row: the table and the count move on by CommitRow and
      CommitRowCount. */
  lemma QueuedSnocStep(rows: seq<Row>, current: seq<Row>, queued: seq<Row>, ids: seq<string>, j: nat, now: string)
    requires |ids| == |queued| && j < |queued|
    ensures AfterQueued(rows, current, queued[..j + 1], ids[..j + 1], now)
      == CommitRow(AfterQueued(rows, current, queued[..j], ids[..j], now), current, queued[j], ids[j], now)
    ensures QueuedCount(rows, current, queued[..j + 1], ids[..j + 1], now)
      == QueuedCount(rows, current, queued[..j], ids[..j], now)
        + CommitRowCount(AfterQueued(rows, current, queued[..j], ids[..j], now), current, queued[j], ids[j])
  {
    assert queued[..j + 1][..j] == queued[..j] && ids[..j + 1][..j] == ids[..j];
  }

  /** The delete loop of the commit: every listed key is deleted and
      counted, whether or not a row held it. */
  method DeleteListed(table: MockTestTable, deletedIds: seq<Value>) returns (count: nat)
    requires table.Valid()
    modifies table
    ensures table.Valid()
    ensures table.rows == AfterDeletes(old(table.rows), deletedIds)
    ensures count == |deletedIds|
  {
    count := 0;
    var i := 0;
    while i < |deletedIds|
      invariant 0 <= i <= |deletedIds|
      invariant table.Valid()
      invariant table.rows == AfterDeletes(old(table.rows), deletedIds[..i])
      invariant count == i
    {
      var ok := table.Delete(deletedIds[i]);
      if ok {
        count := count + 1;
      }
      assert deletedIds[..i + 1][..i] == deletedIds[..i];
      i := i + 1;
    }
    assert deletedIds[..i] == deletedIds;
  }

  /** The queued loop of the commit: every queued row is written back or
      added as CommitRow says and counted as CommitRowCount says. */
  method CommitQueued(table: MockTestTable, current: seq<Row>, queued: seq<Row>, freshIds: seq<string>, now: string)
    returns (count: nat)
    requires table.Valid()
    requires |freshIds| == |queued|
    modifies table
    ensures table.Valid()
    ensures table.rows == AfterQueued(old(table.rows), current, queued, freshIds, now)
    ensures count == QueuedCount(old(table.rows), current, queued, freshIds, now)
  {
    ghost var start := table.rows;
    count := 0;
    var j := 0;
    while j < |queued|
      invariant 0 <= j <= |queued|
      invariant table.Valid()
      invariant table.rows == AfterQueued(start, current, queued[..j], freshIds[..j], now)
      invariant count == QueuedCount(start, current, queued[..j], freshIds[..j], now)
    {
      var row := queued[j];
      QueuedSnocStep(start, current, queued, freshIds, j, now);
      if HasId(current, IdOf(row)) {
        WriteBack(table, row);
        count := count + 1;
      } else if Complete(row) {
        var added := table.Add(freshIds[j], GridCells(row, now));
        if added {
          count := count + 1;
        }
      }
      j := j + 1;
    }
    assert queued[..j] == queued && freshIds[..j] == freshIds;
  }

  /** The commit: the listed keys are deleted, then the queued rows are
      committed, and success_count is the sum of both counts. */
  method Commit(table: MockTestTable, current: seq<Row>, deletedIds: seq<Value>, queued: seq<Row>, freshIds: seq<string>, now: string)
    returns (successCount: nat)
    requires table.Valid()
    requires |freshIds| == |queued|
    modifies table
    ensures table.Valid()
    ensures table.rows == AfterQueued(AfterDeletes(old(table.rows), deletedIds), current, queued, freshIds, now)
    ensures successCount == |deletedIds| + QueuedCount(AfterDeletes(old(table.rows), deletedIds), current, queued, freshIds, now)
  {
    var deleted := DeleteListed(table, deletedIds);
    var committed := CommitQueued(table, current, queued, freshIds, now);
    successCount := deleted + committed;
  }

  /** `.drop(columns=['percentage_score', 'accuracy_q', 'unattempted'],
      errors='ignore')`: the row the grid shows. */
  function ShownRow(row: Row): Row {
    map c | c in row && c != PercentageScore && c != AccuracyQ && c != Unattempted :: row[c]
  }

  function ShownRows(rows: seq<Row>): seq<Row> {
    seq(|rows|, i requires 0 <= i < |rows| => ShownRow(rows[i]))
  }

  /** The load of a well-formed table lists every key once. */
  lemma LoadedKeysDistinct(rows: seq<Row>, userId: Option<int>)
    requires TableRows(rows)
    ensures DistinctBy(LoadMockTestResults(rows, userId), IdOf)
  {
    FilterKeepsDistinct(rows, (x: Row) => UserSelected(x, userId), IdOf);
    var s := SelectedRows(rows, userId);
    DistinctByPermutation(Filter(rows, (x: Row) => UserSelected(x, userId)), s, IdOf);
    var r := LoadMockTestResults(rows, userId);
    forall i | 0 <= i < |r| ensures IdOf(r[i]) == IdOf(s[i]) {
      LoadedRowKeeps(s[i]);
    }
  }

  /** A shown row, dates as text, agrees with the reloaded row, dates as
      text, on the key and on every compared cell. */
  lemma ShownRowAgrees(row: Row)
    ensures IdOf(WithDateAsText(ShownRow(row))) == IdOf(WithDateAsText(row))
    ensures forall c :: c in WithDateAsText(row) && !Excluded(c) ==>
      Get(WithDateAsText(ShownRow(row)), c) == WithDateAsText(row)[c]
  {
  }

  /** Submitting the grid as shown, with no edit, commits nothing: the
      shown rows are the reloaded rows less the derived columns. */
  lemma UntouchedGridCommitsNothing(rows: seq<Row>)
    requires TableRows(rows)
    ensures var loaded := LoadMockTestResults(rows, Some(UserIdRmj));
      var current := DatesAsText(loaded);
      var grid := DatesAsText(ShownRows(loaded));
      Queued(current, grid) == [] && DeletedIds(current, grid) == []
  {
    var loaded := LoadMockTestResults(rows, Some(UserIdRmj));
    var current := DatesAsText(loaded);
    var grid := DatesAsText(ShownRows(loaded));
    LoadedKeysDistinct(rows, Some(UserIdRmj));
    forall i | 0 <= i < |current| ensures IdOf(current[i]) == IdOf(loaded[i]) {
    }
    forall i | 0 <= i < |current|
      ensures IdOf(grid[i]) == IdOf(current[i])
      ensures forall c :: c in current[i] && !Excluded(c) ==> Get(grid[i], c) == current[i][c]
    {
      ShownRowAgrees(loaded[i]);
    }
    UnchangedGridCommitsNothing(current, grid);
  }

  /** The manage tab from the reload to the commit: both frames get their
      dates as text, the grid is compared with the reloaded rows, and,
      when there is something to apply, the commit runs with one fresh key
      at hand per grid row. */
  method ApplyGridEdits(table: MockTestTable, edited: seq<Row>, freshIds: seq<string>, now: string)
    returns (successCount: nat)
    requires table.Valid()
    requires |freshIds| == |edited|
    modifies table
    ensures table.Valid()
    ensures var current := DatesAsText(LoadMockTestResults(old(table.rows), Some(UserIdRmj)));
      var grid := DatesAsText(edited);
      var queued := Queued(current, grid);
      var start := AfterDeletes(old(table.rows), DeletedIds(current, grid));
      && |queued| <= |freshIds|
      && table.rows == AfterQueued(start, current, queued, freshIds[..|queued|], now)
      && successCount == |DeletedIds(current, grid)| + QueuedCount(start, current, queued, freshIds[..|queued|], now)
  {
    var current := DatesAsText(LoadMockTestResults(table.rows, Some(UserIdRmj)));
    var grid := DatesAsText(edited);
    var deletedIds := DeletedIds(current, grid);
    var queued := Reconcile(current, grid);
    if deletedIds == [] && queued == [] {
      return 0;
    }
    successCount := Commit(table, current, deletedIds, queued, freshIds[..|queued|], now);
  }
}
