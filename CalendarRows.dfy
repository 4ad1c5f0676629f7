/** Conversion of the office-calendar CSV rows into day records
    (`convert_csv_to_json` in scripts/update_calendar.py). A row is what
    the CSV reader yields for one line: a map from column header to cell
    text. */
module CalendarRows {
  import opened Wrappers
  import opened Strings
  import opened Sequences

  type Row = map<string, string>

  /** One day of the calendar as written to the yearly JSON file. */
  datatype DayRecord = DayRecord(date: string, week: string, isHoliday: bool, description: string)

  // Column headers: the government file uses Chinese headers, older or
  // hand-made files the English ones.
  const DateHeader := "西元日期"
  const WeekHeader := "星期"
  const HolidayHeader := "是否放假"
  const DescriptionHeader := "備註"
  const DateKey := "date"
  const WeekKey := "week"
  const HolidayKey := "isHoliday"
  const DescriptionKey := "description"

  /** `row.get(primary, row.get(fallback, ""))`. */
  function Field(row: Row, primary: string, fallback: string): string
  {
    GetOr(row, primary, GetOr(row, fallback, ""))
  }

  /** The primary column wins whenever it is present, even when its cell
      is empty; the fallback column is read only when the primary is
      absent, and the empty string stands in when both are absent. */
  lemma FieldFallback(row: Row, primary: string, fallback: string)
    ensures primary in row ==> Field(row, primary, fallback) == row[primary]
    ensures primary !in row && fallback in row ==> Field(row, primary, fallback) == row[fallback]
    ensures primary !in row && fallback !in row ==> Field(row, primary, fallback) == ""
  {
  }

  /** Weekday relabelling table: digits 0-6 (Sunday first) and the Chinese
      labels themselves all map to the Chinese label. */
  const WeekMap: map<string, string> := map[
    "0" := "日", "1" := "一", "2" := "二", "3" := "三",
    "4" := "四", "5" := "五", "6" := "六",
    "日" := "日", "一" := "一", "二" := "二", "三" := "三",
    "四" := "四", "五" := "五", "六" := "六"
  ]

  /** The seven Chinese weekday labels, Sunday first. */
  const WeekLabels: seq<string> := ["日", "一", "二", "三", "四", "五", "六"]
  const WeekDigits: seq<string> := ["0", "1", "2", "3", "4", "5", "6"]

  /** The table's keys are the seven digits and the seven labels; digit d
      and label d both map to label d. */
  lemma WeekMapEntries()
    ensures forall k :: k in WeekMap <==> k in WeekDigits || k in WeekLabels
    ensures forall d :: 0 <= d < 7 ==> WeekMap[WeekDigits[d]] == WeekLabels[d]
    ensures forall d :: 0 <= d < 7 ==> WeekMap[WeekLabels[d]] == WeekLabels[d]
  {
  }

  /** `WEEK_MAP.get(str(v).strip(), v)`: look up the stripped value, pass
      the original (unstripped) value through when it is not a key. */
  function NormalizeWeek(v: string): (w: string)
    ensures w in WeekLabels || w == v
  {
    var k := Strip(v);
    if k in WeekMap then WeekMap[k] else v
  }

  /** A digit `d` in 0..6 becomes the d-th label and each label stays
      itself, whatever whitespace surrounds them; any other value is
      returned exactly as given. */
  lemma NormalizeWeekTable(v: string)
    ensures forall d :: 0 <= d < 7 && Strip(v) == WeekDigits[d] ==> NormalizeWeek(v) == WeekLabels[d]
    ensures forall d :: 0 <= d < 7 && Strip(v) == WeekLabels[d] ==> NormalizeWeek(v) == WeekLabels[d]
    ensures Strip(v) !in WeekDigits && Strip(v) !in WeekLabels ==> NormalizeWeek(v) == v
  {
    WeekMapEntries();
  }

  /** A label is its own relabelling. */
  lemma LabelIsFixed(d: int)
    requires 0 <= d < 7
    ensures NormalizeWeek(WeekLabels[d]) == WeekLabels[d]
  {
    var w := WeekLabels[d];
    assert |w| == 1 && !IsSpace(w[0]);
    StripKeepsTrimmed(w);
    WeekMapEntries();
  }

  /** Each label is its own relabelling. */
  lemma LabelsFixed()
    ensures forall w :: w in WeekLabels ==> NormalizeWeek(w) == w
  {
    forall d | 0 <= d < 7 ensures NormalizeWeek(WeekLabels[d]) == WeekLabels[d] {
      LabelIsFixed(d);
    }
  }

  /** Relabelling twice is relabelling once. */
  lemma NormalizeWeekIdempotent(v: string)
    ensures NormalizeWeek(NormalizeWeek(v)) == NormalizeWeek(v)
  {
    LabelsFixed();
  }

  // Cell values the script recognises for the holiday column.
  const TruthyValues: seq<string> := ["2", "是", "true", "True", "1"]
  const FalsyValues: seq<string> := ["0", "否", "false", "False"]

  /** The holiday flag, with the script's three branches: a recognised
      true value, a recognised false value, and otherwise a comparison
      with "2". The value counts as a holiday exactly when its stripped
      form is one of the true values. */
  function ParseHoliday(v: string): (b: bool)
    ensures b <==> Strip(v) in TruthyValues
  {
    var h := Strip(v);
    if h in TruthyValues then true
    else if h in FalsyValues then false
    else h == "2"
  }

  /** The last branch of `ParseHoliday` can never yield true: "2" is
      already caught by the first. */
  lemma HolidayFallbackIsFalse(v: string)
    requires Strip(v) !in TruthyValues && Strip(v) !in FalsyValues
    ensures !ParseHoliday(v)
  {
  }

  /** `str(v).strip() if v else ""`. */
  function NormalizeDescription(v: string): string
  {
    if v == [] then "" else Strip(v)
  }

  /** The emptiness test changes nothing: the description is always the
      stripped cell. */
  lemma NormalizeDescriptionIsStrip(v: string)
    ensures NormalizeDescription(v) == Strip(v)
    ensures Strip(NormalizeDescription(v)) == NormalizeDescription(v)
  {
    StripIdempotent(v);
  }

  /** `str(v).replace("/", "").replace("-", "")`. */
  function CleanDate(v: string): (d: string)
    ensures '/' !in d && '-' !in d
    ensures |d| <= |v|
  {
    var a := RemoveChar(v, '/');
    var d := RemoveChar(a, '-');
    RemoveCharMultiset(a, '-');
    assert multiset(d)['/'] == multiset(a)['/'] == 0;
    d
  }

  /** The cleaned date is the date cell less its separators: every other
      character stays, as often as before and in the same order, and
      cleaning twice is cleaning once. */
  lemma CleanDateProperties(a: string, b: string)
    ensures multiset(CleanDate(a)) == multiset(a)[('/') := 0][('-') := 0]
    ensures CleanDate(a + b) == CleanDate(a) + CleanDate(b)
    ensures CleanDate(CleanDate(a)) == CleanDate(a)
  {
    RemoveCharMultiset(a, '/');
    RemoveCharMultiset(RemoveChar(a, '/'), '-');
    RemoveCharAppend(a, b, '/');
    RemoveCharAppend(RemoveChar(a, '/'), RemoveChar(b, '/'), '-');
  }

  /** The date cell of a row. */
  function DateCell(row: Row): string
  {
    Field(row, DateHeader, DateKey)
  }

  /** A row is kept when its date, with separators removed, has exactly
      eight characters. Only the length is checked. */
  predicate Keeps(row: Row)
  {
    |CleanDate(DateCell(row))| == 8
  }

  /** The body of the loop for one row: `None` for the `continue` path,
      otherwise the record that is appended. */
  function RowToRecord(row: Row): (r: Option<DayRecord>)
    ensures r.Some? <==> Keeps(row)
  {
    var date := CleanDate(DateCell(row));
    if |date| != 8 then None
    else
      Some(DayRecord(
        date,
        NormalizeWeek(Field(row, WeekHeader, WeekKey)),
        ParseHoliday(Field(row, HolidayHeader, HolidayKey)),
        NormalizeDescription(Field(row, DescriptionHeader, DescriptionKey))))
  }

  /** What a record made from a row contains, field by field. */
  lemma RowToRecordFields(row: Row)
    requires Keeps(row)
    ensures var r := RowToRecord(row).value;
      && r.date == CleanDate(DateCell(row))
      && |r.date| == 8 && '/' !in r.date && '-' !in r.date
      && r.week == NormalizeWeek(Field(row, WeekHeader, WeekKey))
      && (r.isHoliday <==> Strip(Field(row, HolidayHeader, HolidayKey)) in TruthyValues)
      && r.description == Strip(Field(row, DescriptionHeader, DescriptionKey))
  {
    NormalizeDescriptionIsStrip(Field(row, DescriptionHeader, DescriptionKey));
  }

  /** Only the length of the cleaned date is checked: eight characters of
      any kind are kept. */
  lemma NonNumericDateKept()
    ensures Keeps(map[DateHeader := "2025XX01"])
  {
    assert DateCell(map[DateHeader := "2025XX01"]) == "2025XX01";
    assert '/' !in "2025XX01" && '-' !in "2025XX01";
  }

  /** A date without zero padding is too short once cleaned, and is
      dropped. */
  lemma UnpaddedDateDropped()
    ensures !Keeps(map[DateHeader := "2025/1/1"])
  {
    var v := "2025/1/1";
    assert DateCell(map[DateHeader := v]) == v;
    assert multiset(v)['/'] == 2;
    RemoveCharLength(v, '/');
    assert |CleanDate(v)| <= |RemoveChar(v, '/')| == 6;
  }

  /** The rows' conversion: the records of the kept rows, in row order. */
  function Convert(rows: seq<Row>): (out: seq<DayRecord>)
    ensures |out| <= |rows|
  {
    FilterMap(RowToRecord, rows)
  }

  /** Every emitted date has exactly eight characters and no separator. */
  lemma ConvertDates(rows: seq<Row>)
    ensures forall r :: r in Convert(rows) ==> |r.date| == 8 && '/' !in r.date && '-' !in r.date
  {
    forall r | r in Convert(rows) ensures |r.date| == 8 && '/' !in r.date && '-' !in r.date {
      FilterMapMembership(RowToRecord, rows, r);
      var i :| 0 <= i < |rows| && RowToRecord(rows[i]) == Some(r);
      RowToRecordFields(rows[i]);
    }
  }

  /** The positions of the rows that are kept. */
  function KeptRows(rows: seq<Row>): (ix: seq<nat>)
    ensures forall k :: 0 <= k < |ix| ==> ix[k] < |rows|
    ensures forall k, l :: 0 <= k < l < |ix| ==> ix[k] < ix[l]
    ensures forall i :: 0 <= i < |rows| ==> (i in ix <==> Keeps(rows[i]))
  {
    KeptIndices(RowToRecord, rows)
  }

  /** Each kept row yields exactly one record, the dropped rows none, and
      the records come in the order of their rows. */
  lemma ConvertFollowsKeptRows(rows: seq<Row>)
    ensures |Convert(rows)| == |KeptRows(rows)|
    ensures forall k :: 0 <= k < |Convert(rows)| ==>
              RowToRecord(rows[KeptRows(rows)[k]]) == Some(Convert(rows)[k])
  {
    FilterMapFollowsKept(RowToRecord, rows);
  }

  /** Appending one row performs one pass of the loop body. */
  lemma ConvertSnoc(rows: seq<Row>, row: Row)
    ensures Convert(rows + [row]) ==
      match RowToRecord(row)
      case None => Convert(rows)
      case Some(r) => Convert(rows) + [r]
  {
    assert (rows + [row])[..|rows|] == rows;
  }

  /** Extending the prefix by one row performs one pass of the loop body. */
  lemma ConvertPrefixStep(rows: seq<Row>, i: nat)
    requires i < |rows|
    ensures Convert(rows[..i + 1]) ==
      match RowToRecord(rows[i])
      case None => Convert(rows[..i])
      case Some(r) => Convert(rows[..i]) + [r]
  {
    assert rows[..i + 1] == rows[..i] + [rows[i]];
    ConvertSnoc(rows[..i], rows[i]);
  }

  /** Converting a concatenation converts the parts: no row influences the
      record of another. */
  lemma ConvertAppend(a: seq<Row>, b: seq<Row>)
    ensures Convert(a + b) == Convert(a) + Convert(b)
  {
    FilterMapAppend(RowToRecord, a, b);
  }

  /** A record is in the output exactly when some row produces it. */
  lemma ConvertMembership(rows: seq<Row>, r: DayRecord)
    ensures r in Convert(rows) <==> exists i :: 0 <= i < |rows| && RowToRecord(rows[i]) == Some(r)
  {
    FilterMapMembership(RowToRecord, rows, r);
  }

  /** `convert_csv_to_json` after the CSV reader: walks the rows, skips
      those whose cleaned date is not eight characters long, and appends
      one record per remaining row. */
  method ConvertRows(rows: seq<Row>) returns (result: seq<DayRecord>)
    ensures result == Convert(rows)
  {
    result := [];
    for i := 0 to |rows|
      invariant result == Convert(rows[..i])
    {
      ConvertPrefixStep(rows, i);
      var row := rows[i];
      var dateStr := CleanDate(DateCell(row));
      if |dateStr| != 8 {
        continue;
      }
      var week := NormalizeWeek(Field(row, WeekHeader, WeekKey));
      var isHoliday := ParseHoliday(Field(row, HolidayHeader, HolidayKey));
      var description := NormalizeDescription(Field(row, DescriptionHeader, DescriptionKey));
      result := result + [DayRecord(dateStr, week, isHoliday, description)];
    }
    assert rows[..|rows|] == rows;
  }

}
