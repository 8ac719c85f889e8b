/** The AI Nexus co-pilot of the mock-test logger: a chat reply chosen by
    the phrase the query contains, over the loaded results sorted by
    assessment date. The model fitting and the reply texts are not part of
    it; what is kept is which reply is given, the guards in front of the
    prediction and the difficulty codes of its three scenarios. */
module AiNexus {
  import opened Common
  import opened Sorting
  import opened Text
  import opened Cells
  import opened MockLog

  /** The commands the co-pilot recognises. */
  datatype Command = SummaryCommand | PredictCommand | MotivateCommand | SignatureCommand | UnknownCommand

  /** The first phrase, in this order, that the lower-cased query
      contains. */
  function Classify(userQuery: string): Command {
    var q := Lower(userQuery);
    if Contains(q, "performance summary") then SummaryCommand
    else if Contains(q, "predict score") then PredictCommand
    else if Contains(q, "motivate me") || Contains(q, "inspire me") then MotivateCommand
    else if Contains(q, "neural signature") then SignatureCommand
    else UnknownCommand
  }

  /** The command does not depend on letter case. */
  lemma ClassifyIgnoresCase(userQuery: string)
    ensures Classify(Lower(userQuery)) == Classify(userQuery)
  {
    LowerIdempotent(userQuery);
  }

  /** A query is not recognised exactly when it contains none of the five
      phrases, and it is a summary request whenever it asks for one, even
      if it also names another command. */
  lemma ClassifyFallback(userQuery: string)
    ensures var q := Lower(userQuery);
      Classify(userQuery) == UnknownCommand <==>
        !Contains(q, "performance summary") && !Contains(q, "predict score") && !Contains(q, "motivate me")
        && !Contains(q, "inspire me") && !Contains(q, "neural signature")
    ensures Contains(Lower(userQuery), "performance summary") ==> Classify(userQuery) == SummaryCommand
  {
  }

  /** `.map({'Easy': 1, 'Medium': 2, 'Hard': 3, 'Very Hard': 4})`: any other
      cell maps to NaN, here None. */
  function DifficultyCode(v: Value): Option<int> {
    if v == Text("Easy") then Some(1)
    else if v == Text("Medium") then Some(2)
    else if v == Text("Hard") then Some(3)
    else if v == Text("Very Hard") then Some(4)
    else None
  }

  /** The codes run from 1 to 4, and different labels get different codes. */
  lemma DifficultyCodeSpec(v: Value, w: Value)
    ensures DifficultyCode(v).Some? ==> 1 <= DifficultyCode(v).value <= 4
    ensures DifficultyCode(v).Some? && DifficultyCode(v) == DifficultyCode(w) ==> v == w
    ensures DifficultyCode(v).Some? <==> v in {Text("Easy"), Text("Medium"), Text("Hard"), Text("Very Hard")}
  {
  }

  /** Python's `min(4, d + 1)`: the bound unless the other value is
      smaller; NaN compares as not smaller, so it gives the bound. */
  function HarderCode(d: Option<int>): Option<int> {
    if d.Some? && d.value + 1 < 4 then Some(d.value + 1) else Some(4)
  }

  /** Python's `max(1, d - 1)`, with NaN giving the bound. */
  function EasierCode(d: Option<int>): Option<int> {
    if d.Some? && d.value - 1 > 1 then Some(d.value - 1) else Some(1)
  }

  /** The difficulty codes of the three scenarios: one step harder, the
      anchor's own, and one step easier. */
  function ScenarioCodes(d: Option<int>): seq<Option<int>> {
    [HarderCode(d), d, EasierCode(d)]
  }

  /** For a known code the scenarios stay within 1 to 4, the first is the
      next harder level (capped at 4) and the last the next easier (floored
      at 1); an unknown code gives 4 and 1 around it. */
  lemma ScenarioCodesSpec(d: Option<int>)
    ensures |ScenarioCodes(d)| == 3 && ScenarioCodes(d)[1] == d
    ensures d.Some? && 1 <= d.value <= 4 ==>
      && (forall k :: 0 <= k < 3 ==> ScenarioCodes(d)[k].Some? && 1 <= ScenarioCodes(d)[k].value <= 4)
      && ScenarioCodes(d)[0].value == (if d.value == 4 then 4 else d.value + 1)
      && ScenarioCodes(d)[2].value == (if d.value == 1 then 1 else d.value - 1)
      && ScenarioCodes(d)[2].value <= d.value <= ScenarioCodes(d)[0].value
    ensures d.None? ==> ScenarioCodes(d) == [Some(4), None, Some(1)]
  {
  }

  /** A row the regressor is fitted on: time, difficulty code and score
      all present after `dropna`. */
  predicate ValidForFit(row: Row) {
    && Get(row, TimeTakenMinutes).Num?
    && DifficultyCode(Get(row, Difficulty)).Some?
    && Get(row, PercentageScore).Num?
  }

  datatype Reply =
    | NoAssessmentData
    | PerformanceOverview(numTests: nat, domainAnalysis: bool)
    | InsufficientData
    | NotEnoughValidData
    | Forecast(anchorTime: Value, difficulties: seq<Option<int>>)
    | Motivation(index: nat)
    | ActiveSignature(signature: string)
    | NotRecognized

  /** The two refusals in front of the prediction: fewer than five
      assessments, then fewer than two rows to fit on. */
  function PredictRefusal(rows: seq<Row>): Option<Reply> {
    if |rows| < 5 then Some(InsufficientData)
    else if |Filter(rows, ValidForFit)| < 2 then Some(NotEnoughValidData)
    else None
  }

  /** The scenarios built around the anchor row. */
  function ForecastFor(anchor: Row): Reply {
    Forecast(Get(anchor, TimeTakenMinutes), ScenarioCodes(DifficultyCode(Get(anchor, Difficulty))))
  }

  /** The prediction as written: the anchor is the first row, which, the
      rows being sorted by ascending date, is the earliest assessment. */
  function PredictReplyAsWritten(rows: seq<Row>): Reply {
    match PredictRefusal(rows)
    case Some(refusal) => refusal
    case None => ForecastFor(rows[0])
  }

  /** The prediction with the anchor its comment intends, the latest
      assessment: the last row. */
  function PredictReply(rows: seq<Row>): Reply {
    match PredictRefusal(rows)
    case Some(refusal) => refusal
    case None => ForecastFor(rows[|rows| - 1])
  }

  /** Five assessments and two usable rows are needed before anything is
      predicted; with them, the scenarios come from the latest row, and
      their codes lie within 1 to 4 whenever that row's difficulty is one
      of the four labels. */
  lemma PredictReplySpec(rows: seq<Row>)
    ensures PredictReply(rows) == InsufficientData <==> |rows| < 5
    ensures PredictReply(rows) == NotEnoughValidData <==> |rows| >= 5 && |Filter(rows, ValidForFit)| < 2
    ensures PredictReply(rows).Forecast? <==> |rows| >= 5 && |Filter(rows, ValidForFit)| >= 2
    ensures PredictReply(rows).Forecast? ==>
      var anchor := rows[|rows| - 1];
      && PredictReply(rows).anchorTime == Get(anchor, TimeTakenMinutes)
      && (DifficultyCode(Get(anchor, Difficulty)).Some? ==>
            forall k :: 0 <= k < |PredictReply(rows).difficulties| ==>
              PredictReply(rows).difficulties[k].Some? && 1 <= PredictReply(rows).difficulties[k].value <= 4)
  {
    if PredictReply(rows).Forecast? {
      var anchor := rows[|rows| - 1];
      DifficultyCodeSpec(Get(anchor, Difficulty), Get(anchor, Difficulty));
      ScenarioCodesSpec(DifficultyCode(Get(anchor, Difficulty)));
    }
  }

  /** The number of reassuring messages the co-pilot picks from. */
  const MotivationCount: nat := 5

  /** The domain group-by is empty only when no row names a domain (NaN
      keys are dropped). */
  predicate HasDomain(rows: seq<Row>) {
    exists i :: 0 <= i < |rows| && Get(rows[i], Domain) != Null
  }

  /** ai_nexus_response: `pick` stands for random.choice and `signature`
      for the directive's neural_signature entry, if any. The prediction is
      the corrected PredictReply, anchored on the latest assessment; the
      code as written is PredictReplyAsWritten. */
  function NexusResponse(userQuery: string, rows: seq<Row>, signature: Option<string>, pick: nat): Reply {
    match Classify(userQuery)
    case SummaryCommand =>
      if rows == [] then NoAssessmentData else PerformanceOverview(|rows|, HasDomain(rows))
    case PredictCommand => PredictReply(rows)
    case MotivateCommand => Motivation(pick % MotivationCount)
    case SignatureCommand => ActiveSignature(if signature.Some? then signature.value else "UNKNOWN")
    case UnknownCommand => NotRecognized
  }

  /** Each command gets its own kind of reply: a summary counts every
      assessment, a motivation is one of the five messages, the signature
      falls back to "UNKNOWN", and the reply does not depend on letter
      case. */
  lemma NexusResponseSpec(userQuery: string, rows: seq<Row>, signature: Option<string>, pick: nat)
    ensures var r := NexusResponse(userQuery, rows, signature, pick);
      && (Classify(userQuery) == SummaryCommand ==> (r == NoAssessmentData <==> rows == []) && (r.PerformanceOverview? ==> r.numTests == |rows|))
      && (Classify(userQuery) == PredictCommand ==> r == PredictReply(rows))
      && (Classify(userQuery) == MotivateCommand ==> r.Motivation? && r.index < MotivationCount)
      && (Classify(userQuery) == SignatureCommand ==> r == ActiveSignature(if signature.Some? then signature.value else "UNKNOWN"))
      && (r == NotRecognized <==> Classify(userQuery) == UnknownCommand)
    ensures NexusResponse(Lower(userQuery), rows, signature, pick) == NexusResponse(userQuery, rows, signature, pick)
  {
    ClassifyIgnoresCase(userQuery);
  }

  /** pandas' ascending sort key: missing dates go last. */
  predicate DateKeyLe(x: Value, y: Value) {
    y == Null || (x != Null && SqlLe(x, y))
  }

  /** `sort_values(by="assessment_date")`: a is listed no later than b. */
  predicate EarlierFirst(a: Row, b: Row) {
    DateKeyLe(Get(a, AssessmentDate), Get(b, AssessmentDate))
  }

  lemma EarlierFirstIsTotalPreorder()
    ensures IsTotalPreorder(EarlierFirst)
    ensures forall a :: EarlierFirst(a, a)
  {
    SqlLeIsTotalPreorder();
  }

  /** The loaded rows in ascending date order. */
  function ByDate(loaded: seq<Row>): (r: seq<Row>)
    ensures multiset(r) == multiset(loaded)
    ensures SortedBy(r, EarlierFirst)
  {
    EarlierFirstIsTotalPreorder();
    Sort(loaded, EarlierFirst)
  }

  /** The page's call: nothing is asked of the co-pilot without data;
      otherwise the loaded rows go in ascending date order, with the page's
      own signature. */
  function AskNexus(userQuery: string, loaded: seq<Row>, pick: nat): Option<Reply> {
    if loaded == [] then None
    else Some(NexusResponse(userQuery, ByDate(loaded), Some(NeuralSignatureRmj), pick))
  }

  /** The forecast's anchor is a loaded assessment with a date no earlier
      than any other's. Missing dates sort last, so when some assessment
      has no date the anchor is one without a date, and "no earlier" then
      holds of every row trivially: the lemma says something only when
      every loaded assessment has a date. */
  lemma ForecastAnchorIsLatest(loaded: seq<Row>)
    requires loaded != []
    ensures var sorted := ByDate(loaded);
      && |sorted| == |loaded|
      && sorted[|sorted| - 1] in loaded
      && forall x :: x in loaded ==> EarlierFirst(x, sorted[|sorted| - 1])
  {
    EarlierFirstIsTotalPreorder();
    var sorted := ByDate(loaded);
    assert |sorted| == |multiset(sorted)| == |multiset(loaded)| == |loaded|;
    assert sorted[|sorted| - 1] in multiset(loaded);
    forall x | x in loaded ensures EarlierFirst(x, sorted[|sorted| - 1]) {
      assert x in multiset(sorted);
      var i :| 0 <= i < |sorted| && sorted[i] == x;
    }
  }

  /** As written, the anchor is the earliest assessment of the sorted rows. */
  lemma AsWrittenAnchorIsEarliest(rows: seq<Row>)
    requires SortedBy(rows, EarlierFirst)
    requires PredictReplyAsWritten(rows).Forecast?
    ensures PredictReplyAsWritten(rows) == ForecastFor(rows[0])
    ensures forall i :: 0 <= i < |rows| ==> EarlierFirst(rows[0], rows[i])
  {
    EarlierFirstIsTotalPreorder();
  }

  /** A usable assessment on the given day that took the given time. */
  function SampleTest(day: Date, minutes: real): Row {
    map[AssessmentDate := Text(IsoFormat(day)), TimeTakenMinutes := Num(minutes),
        Difficulty := Text("Easy"), PercentageScore := Num(50.0)]
  }

  /** Four assessments on one day taking 60 to 90 minutes, then one on a
      later day taking 100. */
  function SampleTests(early: Date, late: Date): seq<Row> {
    [SampleTest(early, 60.0), SampleTest(early, 70.0), SampleTest(early, 80.0), SampleTest(early, 90.0), SampleTest(late, 100.0)]
  }

  /** Sample assessments sort by their days, and every one is usable. */
  lemma SampleTestOrder(a: Date, x: real, b: Date, y: real)
    ensures EarlierFirst(SampleTest(a, x), SampleTest(b, y)) <==> DateLe(a, b)
    ensures ValidForFit(SampleTest(a, x))
  {
    SqlLeOnDates(a, b);
  }

  /** The scenarios of one sample assessment: Easy is code 1, so Harder is
      2 and Easier stays at 1. */
  lemma SampleForecast(day: Date, minutes: real)
    ensures ForecastFor(SampleTest(day, minutes)) == Forecast(Num(minutes), [Some(2), Some(1), Some(1)])
  {
    assert DifficultyCode(Text("Easy")) == Some(1);
  }

  /** The sample is in date order, its last assessment strictly after its
      first, and every one of its rows is usable. */
  lemma SampleTestsShape(early: Date, late: Date)
    requires DateLe(early, late) && !DateLe(late, early)
    ensures SortedBy(SampleTests(early, late), EarlierFirst)
    ensures !EarlierFirst(SampleTests(early, late)[4], SampleTests(early, late)[0])
    ensures Filter(SampleTests(early, late), ValidForFit) == SampleTests(early, late)
  {
    SampleTestsSorted(early, late);
    SampleTestOrder(late, 100.0, early, 60.0);
    var rows := SampleTests(early, late);
    forall i | 0 <= i < 5 ensures ValidForFit(rows[i]) {
      SampleTestOrder(early, rows[i][TimeTakenMinutes].x, early, 0.0);
    }
    FilterKeepsAll(rows, ValidForFit);
  }

  lemma SampleTestsSorted(early: Date, late: Date)
    requires DateLe(early, late)
    ensures SortedBy(SampleTests(early, late), EarlierFirst)
  {
    var rows := SampleTests(early, late);
    forall i, j | 0 <= i < j < 5 ensures EarlierFirst(rows[i], rows[j]) {
      if j < 4 {
        SampleTestOrder(early, rows[i][TimeTakenMinutes].x, early, rows[j][TimeTakenMinutes].x);
      } else {
        SampleTestOrder(early, rows[i][TimeTakenMinutes].x, late, 100.0);
      }
    }
  }

  /** Sorted by date, the as-written forecast of the sample starts from the
      earliest assessment's 60 minutes, while the latest assessment took
      100; the corrected forecast starts from the latest. */
  lemma AsWrittenAnchorMissesLatest(early: Date, late: Date)
    requires DateLe(early, late) && !DateLe(late, early)
    ensures SortedBy(SampleTests(early, late), EarlierFirst)
    ensures PredictReplyAsWritten(SampleTests(early, late)) == Forecast(Num(60.0), [Some(2), Some(1), Some(1)])
    ensures PredictReply(SampleTests(early, late)) == Forecast(Num(100.0), [Some(2), Some(1), Some(1)])
    ensures !EarlierFirst(SampleTests(early, late)[4], SampleTests(early, late)[0])
  {
    var rows := SampleTests(early, late);
    SampleTestsShape(early, late);
    assert PredictRefusal(rows) == None;
    SampleForecast(early, 60.0);
    SampleForecast(late, 100.0);
  }
}
