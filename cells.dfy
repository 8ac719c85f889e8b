/** The cells of the mock-test table and of the DataFrames built from it:
    a missing value, a number, a text or a calendar date; the two ways a
    date becomes text (strftime("%Y-%m-%d") and the sqlite3 module's date
    adapter); and the order SQLite sorts a column in. */
module Cells {
  import opened Text

  datatype CalendarDate = CalendarDate(year: int, month: int, day: int)

  /** A Python `date`. Days are not checked against the month's length. */
  type Date = d: CalendarDate | 1 <= d.year <= 9999 && 1 <= d.month <= 12 && 1 <= d.day <= 31
    witness CalendarDate(1970, 1, 1)

  /** A cell. Null stands for SQL NULL and for pandas' None and NaN, all of
      which pd.isna reports as missing. Integers and floats are both Num. */
  datatype Value = Null | Num(x: real) | Text(s: string) | Day(d: Date)

  /** The columns of mock_test_results in CREATE TABLE order, then the three
      the load derives, then any other name a DataFrame may carry. */
  datatype Column =
    | Id | UserId | AssessmentDate | ExamType | TestName | Domain
    | TotalQuestions | Attempted | Correct | Wrong
    | PhysicsScore | ChemistryScore | MathsScore | BiologyScore
    | TotalScore | MaxScorePossible | Percentile | Rank | TargetScore
    | Difficulty | TimeTakenMinutes | Feedback | NeuralSignature | Timestamp
    | PercentageScore | AccuracyQ | Unattempted
    | Other(name: string)

  /** A table row or a DataFrame row: column to cell. */
  type Row = map<Column, Value>

  /** `row.get(col)`: the cell, or None when the row has no such column. */
  function Get(row: Row, col: Column): Value {
    if col in row then row[col] else Null
  }

  /** `row.get(col, default)`: the default is used only when the column is
      absent; a column that is present keeps its cell, even a missing one. */
  function GetOr(row: Row, col: Column, default: Value): Value {
    if col in row then row[col] else default
  }

  function Pow10(n: nat): (p: nat)
    ensures p >= 1
  {
    if n == 0 then 1 else 10 * Pow10(n - 1)
  }

  function DigitChar(k: int): char
    requires 0 <= k <= 9
  {
    (k + 48) as char
  }

  lemma LeadingDigit(n: nat, p: nat)
    requires p >= 1 && n < 10 * p
    ensures 0 <= n / p <= 9 && n % p < p
  {
  }

  /** n in decimal with leading zeros to exactly `width` digits. */
  function Padded(n: nat, width: nat): (s: string)
    requires n < Pow10(width)
    ensures |s| == width
    decreases width
  {
    if width == 0 then []
    else
      var p := Pow10(width - 1);
      LeadingDigit(n, p);
      [DigitChar(n / p)] + Padded(n % p, width - 1)
  }

  lemma DivModOrder(a: nat, b: nat, p: nat)
    requires p >= 1
    ensures a <= b <==> (a / p < b / p || (a / p == b / p && a % p <= b % p))
  {
    var qa, ra, qb, rb := a / p, a % p, b / p, b % p;
    assert a == p * qa + ra && 0 <= ra < p;
    assert b == p * qb + rb && 0 <= rb < p;
    if qa < qb {
      MulMonotone(p, qa + 1, qb);
      assert p * (qa + 1) == p * qa + p;
    } else if qb < qa {
      MulMonotone(p, qb + 1, qa);
      assert p * (qb + 1) == p * qb + p;
    }
  }

  lemma MulMonotone(p: nat, x: int, y: int)
    requires x <= y
    ensures p * x <= p * y
  {
    assert p * y - p * x == p * (y - x);
  }

  /** Padded texts of one width compare as the numbers do. */
  lemma {:induction false} PaddedOrder(a: nat, b: nat, width: nat)
    requires a < Pow10(width) && b < Pow10(width)
    ensures StrLe(Padded(a, width), Padded(b, width)) <==> a <= b
    decreases width
  {
    if width > 0 {
      var p := Pow10(width - 1);
      LeadingDigit(a, p);
      LeadingDigit(b, p);
      var A, B := Padded(a, width), Padded(b, width);
      assert A[0] == DigitChar(a / p) && A[1..] == Padded(a % p, width - 1);
      assert B[0] == DigitChar(b / p) && B[1..] == Padded(b % p, width - 1);
      PaddedOrder(a % p, b % p, width - 1);
      DivModOrder(a, b, p);
    }
  }

  lemma PaddedStrictOrder(a: nat, b: nat, width: nat)
    requires a < Pow10(width) && b < Pow10(width)
    ensures StrLt(Padded(a, width), Padded(b, width)) <==> a < b
  {
    PaddedOrder(a, b, width);
    PaddedOrder(b, a, width);
    if Padded(a, width) == Padded(b, width) {
      assert a == b;
    }
  }

  /** The year as strftime's %Y writes it with the GNU C library: its
      decimal digits with no padding. */
  function YearText(y: int): string
    requires 1 <= y <= 9999
  {
    if y < 10 then Padded(y, 1)
    else if y < 100 then Padded(y, 2)
    else if y < 1000 then Padded(y, 3)
    else Padded(y, 4)
  }

  /** `d.strftime("%Y-%m-%d")`. */
  function Strftime(d: Date): string {
    YearText(d.year) + "-" + Padded(d.month, 2) + "-" + Padded(d.day, 2)
  }

  /** `d.isoformat()`, which the sqlite3 module's default adapter stores for a
      date parameter: the year is always four digits. */
  function IsoFormat(d: Date): string {
    Padded(d.year, 4) + "-" + Padded(d.month, 2) + "-" + Padded(d.day, 2)
  }

  /** From the year 1000 on, both spellings are the same ten characters. */
  lemma StrftimeAgreesWithIsoFormat(d: Date)
    requires d.year >= 1000
    ensures Strftime(d) == IsoFormat(d)
    ensures |IsoFormat(d)| == 10 && IsoFormat(d)[4] == '-' && IsoFormat(d)[7] == '-'
  {
  }

  /** Chronological order. */
  predicate DateLe(a: Date, b: Date) {
    || a.year < b.year
    || (a.year == b.year && (a.month < b.month || (a.month == b.month && a.day <= b.day)))
  }

  /** The "-MM-DD" part of an ISO date. */
  function MonthDayText(m: nat, d: nat): string
    requires m < 100 && d < 100
  {
    "-" + (Padded(m, 2) + ("-" + Padded(d, 2)))
  }

  lemma IsoFormatSplit(d: Date)
    ensures IsoFormat(d) == Padded(d.year, 4) + MonthDayText(d.month, d.day)
  {
  }

  /** "-MM-DD" texts sort by month, then by day. */
  lemma MonthDayOrder(m1: nat, d1: nat, m2: nat, d2: nat)
    requires m1 < 100 && d1 < 100 && m2 < 100 && d2 < 100
    ensures StrLe(MonthDayText(m1, d1), MonthDayText(m2, d2)) <==> m1 < m2 || (m1 == m2 && d1 <= d2)
  {
    var x1, x2 := Padded(m1, 2), Padded(m2, 2);
    var y1, y2 := Padded(d1, 2), Padded(d2, 2);
    StrLeConcat("-", x1 + ("-" + y1), "-", x2 + ("-" + y2));
    StrLeConcat(x1, "-" + y1, x2, "-" + y2);
    StrLeConcat("-", y1, "-", y2);
    PaddedStrictOrder(m1, m2, 2);
    PaddedStrictOrder(m2, m1, 2);
    PaddedOrder(d1, d2, 2);
    assert !StrLt("-", "-");
  }

  /** ISO date texts sort as the dates do, so `ORDER BY assessment_date` on
      the stored text is chronological order. */
  lemma IsoFormatOrder(a: Date, b: Date)
    ensures StrLe(IsoFormat(a), IsoFormat(b)) <==> DateLe(a, b)
  {
    IsoFormatSplit(a);
    IsoFormatSplit(b);
    StrLeConcat(Padded(a.year, 4), MonthDayText(a.month, a.day), Padded(b.year, 4), MonthDayText(b.month, b.day));
    PaddedStrictOrder(a.year, b.year, 4);
    PaddedStrictOrder(b.year, a.year, 4);
    MonthDayOrder(a.month, a.day, b.month, b.day);
  }

  /** Different dates are stored as different texts. */
  lemma IsoFormatInjective(a: Date, b: Date)
    requires IsoFormat(a) == IsoFormat(b)
    ensures a == b
  {
    StrLeTotal(IsoFormat(a), IsoFormat(b));
    IsoFormatOrder(a, b);
    IsoFormatOrder(b, a);
  }

  /** What SQLite receives for a parameter: a date goes through the default
      adapter, everything else as it is. */
  function Adapted(v: Value): (w: Value)
    ensures !w.Day?
    ensures !v.Day? ==> w == v
  {
    if v.Day? then Text(IsoFormat(v.d)) else v
  }

  /** SQLite's storage classes in sort order: NULL, then numbers, then text. */
  function SqlClass(v: Value): nat {
    match Adapted(v)
    case Null => 0
    case Num(_) => 1
    case _ => 2
  }

  /** `ORDER BY` ascending: by storage class, numbers by value, texts by the
      BINARY collation (code-point order). */
  predicate SqlLe(a: Value, b: Value) {
    var x, y := Adapted(a), Adapted(b);
    || SqlClass(a) < SqlClass(b)
    || (x.Null? && y.Null?)
    || (x.Num? && y.Num? && x.x <= y.x)
    || (x.Text? && y.Text? && StrLe(x.s, y.s))
  }

  lemma SqlLeIsTotalPreorder()
    ensures forall a, b :: SqlLe(a, b) || SqlLe(b, a)
    ensures forall a, b, c :: SqlLe(a, b) && SqlLe(b, c) ==> SqlLe(a, c)
  {
    forall a, b ensures SqlLe(a, b) || SqlLe(b, a) {
      var x, y := Adapted(a), Adapted(b);
      if x.Text? && y.Text? {
        StrLeTotal(x.s, y.s);
      }
    }
    forall a, b, c | SqlLe(a, b) && SqlLe(b, c) ensures SqlLe(a, c) {
      var x, y, z := Adapted(a), Adapted(b), Adapted(c);
      if x.Text? && y.Text? && z.Text? && StrLe(x.s, y.s) && StrLe(y.s, z.s) {
        StrLeTransitive(x.s, y.s, z.s);
      }
    }
  }

  /** Dates stored through the adapter sort chronologically. */
  lemma SqlLeOnDates(a: Date, b: Date)
    ensures SqlLe(Day(a), Day(b)) <==> DateLe(a, b)
    ensures SqlLe(Text(IsoFormat(a)), Text(IsoFormat(b))) <==> DateLe(a, b)
  {
    IsoFormatOrder(a, b);
  }
}
