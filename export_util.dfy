/**
 * ExportUtil: the CSV and fixed-width text reports of a student list, produced as the list
 * of lines the exporter prints. Number formatting ("%.2f") is a parameter `fmt`.
 */
module ExportUtil {
  import opened Wrappers
  import opened JavaLang
  import opened StudentModel
  import Statistics

  // ---------------------------------------------------------------- CSV fields

  /** Only a comma, a double quote or a line feed makes a field need quoting. */
  predicate NeedsQuoting(field: string) {
    ',' in field || '"' in field || '\n' in field
  }

  /** String.replace("\"", "\"\""): every double quote doubled. */
  function DoubleQuotes(s: string): (r: string)
    ensures |r| >= |s|
  {
    if s == [] then []
    else (if s[0] == '"' then "\"\"" else [s[0]]) + DoubleQuotes(s[1..])
  }

  /** ExportUtil.escapeCsvField: null becomes empty; a field that needs quoting is quoted with inner quotes doubled. */
  function EscapeCsvField(field: Option<string>): (r: string)
    ensures field.None? ==> r == ""
    ensures field.Some? && !NeedsQuoting(field.value) ==> r == field.value
    ensures field.Some? && NeedsQuoting(field.value) ==>
      |r| >= 2 && r[0] == '"' && r[|r| - 1] == '"' && |r| >= |field.value| + 2
  {
    match field
    case None => ""
    case Some(f) => if NeedsQuoting(f) then "\"" + DoubleQuotes(f) + "\"" else f
  }

  // ---------------------------------------------------------------- a CSV reader

  /** An unquoted field: everything up to the next comma. Returns the field and what follows it. */
  function ReadPlain(s: string): (r: (string, string))
    ensures r.0 + r.1 == s
    ensures r.1 == [] || r.1[0] == ','
  {
    if s == [] || s[0] == ',' then ([], s)
    else
      var r := ReadPlain(s[1..]);
      ([s[0]] + r.0, r.1)
  }

  /**
   * A quoted field after its opening quote: a doubled quote stands for one quote, a single
   * quote closes the field. Returns the field and what follows the closing quote.
   */
  function ReadQuoted(s: string): (r: (string, string))
    ensures |r.1| <= |s|
  {
    if s == [] then ([], [])
    else if s[0] == '"' then
      if |s| >= 2 && s[1] == '"' then
        var r := ReadQuoted(s[2..]);
        (['"'] + r.0, r.1)
      else ([], s[1..])
    else
      var r := ReadQuoted(s[1..]);
      ([s[0]] + r.0, r.1)
  }

  /** One field at the start of a line. */
  function ReadField(s: string): (r: (string, string))
    ensures |r.1| <= |s|
  {
    if s != [] && s[0] == '"' then ReadQuoted(s[1..]) else ReadPlain(s)
  }

  /** Splits one CSV line into its unescaped fields (quoting as in section 2 of RFC 4180). */
  function ParseCsvLine(s: string): (fields: seq<string>)
    ensures |fields| >= 1
    decreases |s|
  {
    var r := ReadField(s);
    if r.1 == [] then [r.0] else [r.0] + ParseCsvLine(r.1[1..])
  }

  lemma {:induction false} ReadPlainField(f: string, tail: string)
    requires ',' !in f
    requires tail == [] || tail[0] == ','
    ensures ReadPlain(f + tail) == (f, tail)
  {
    if f != [] {
      assert f[0] in f;
      assert (f + tail)[0] == f[0];
      assert (f + tail)[1..] == f[1..] + tail;
      ReadPlainField(f[1..], tail);
      assert f == [f[0]] + f[1..];
    } else {
      assert f + tail == tail;
    }
  }

  lemma {:induction false} ReadQuotedField(f: string, tail: string)
    requires tail == [] || tail[0] == ','
    ensures ReadQuoted(DoubleQuotes(f) + "\"" + tail) == (f, tail)
  {
    var s := DoubleQuotes(f) + "\"" + tail;
    if f == [] {
      assert s == "\"" + tail;
    } else if f[0] == '"' {
      var rest := DoubleQuotes(f[1..]) + "\"" + tail;
      assert s == "\"\"" + rest;
      assert s[0] == '"' && s[1] == '"' && s[2..] == rest;
      ReadQuotedField(f[1..], tail);
      assert f == ['"'] + f[1..];
    } else {
      assert s == [f[0]] + (DoubleQuotes(f[1..]) + "\"" + tail);
      assert s[0] == f[0] && s[1..] == DoubleQuotes(f[1..]) + "\"" + tail;
      ReadQuotedField(f[1..], tail);
      assert f == [f[0]] + f[1..];
    }
  }

  /**
   * Reading an escaped field gives back the original field and stops right before the next
   * separator: unquoted fields are taken verbatim; for quoted ones, dropping the outer quotes
   * and collapsing each doubled quote recovers the field.
   */
  lemma {:induction false} EscapeRoundTrip(f: string, tail: string)
    requires tail == [] || tail[0] == ','
    ensures ReadField(EscapeCsvField(Some(f)) + tail) == (f, tail)
  {
    if NeedsQuoting(f) {
      QuotedRoundTrip(f, tail);
    } else {
      PlainRoundTrip(f, tail);
    }
  }

  lemma {:induction false} QuotedRoundTrip(f: string, tail: string)
    requires NeedsQuoting(f)
    requires tail == [] || tail[0] == ','
    ensures ReadField(EscapeCsvField(Some(f)) + tail) == (f, tail)
  {
    var body := DoubleQuotes(f) + "\"" + tail;
    var s := ['"'] + body;
    assert EscapeCsvField(Some(f)) + tail == s;
    assert s[1..] == body;
    ReadQuotedField(f, tail);
  }

  lemma {:induction false} PlainRoundTrip(f: string, tail: string)
    requires !NeedsQuoting(f)
    requires tail == [] || tail[0] == ','
    ensures ReadField(EscapeCsvField(Some(f)) + tail) == (f, tail)
  {
    assert EscapeCsvField(Some(f)) == f;
    if f != [] {
      assert f[0] in f;
      assert (f + tail)[0] == f[0];
    } else {
      assert f + tail == tail;
    }
    ReadPlainField(f, tail);
  }

  /** Every field escaped. */
  function EscapeAll(fields: seq<string>): seq<string> {
    seq(|fields|, i requires 0 <= i < |fields| => EscapeCsvField(Some(fields[i])))
  }

  /** A line of escaped fields joined by commas reads back as exactly those fields. */
  lemma {:induction false} CsvLineRoundTrip(fields: seq<string>)
    requires fields != []
    ensures ParseCsvLine(Join(EscapeAll(fields), ',')) == fields
    decreases |fields|
  {
    var first := EscapeCsvField(Some(fields[0]));
    if |fields| == 1 {
      EscapeRoundTrip(fields[0], []);
      assert Join(EscapeAll(fields), ',') == first + [];
    } else {
      var restLine := Join(EscapeAll(fields[1..]), ',');
      EscapedLineCons(fields);
      EscapeRoundTrip(fields[0], [','] + restLine);
      ParseStep(first, fields[0], restLine);
      CsvLineRoundTrip(fields[1..]);
      assert fields == [fields[0]] + fields[1..];
    }
  }

  /** The escaped line is the first escaped field, a comma, and the line of the other fields. */
  lemma {:induction false} EscapedLineCons(fields: seq<string>)
    requires |fields| >= 2
    ensures Join(EscapeAll(fields), ',') ==
      EscapeCsvField(Some(fields[0])) + [','] + Join(EscapeAll(fields[1..]), ',')
  {
    var cells := EscapeAll(fields);
    assert cells[1..] == EscapeAll(fields[1..]);
  }

  /** A field read up to a comma leaves the rest of the line to be parsed on its own. */
  lemma {:induction false} ParseStep(cell: string, f: string, restLine: string)
    requires ReadField(cell + ([','] + restLine)) == (f, [','] + restLine)
    ensures ParseCsvLine(cell + [','] + restLine) == [f] + ParseCsvLine(restLine)
  {
    assert cell + [','] + restLine == cell + ([','] + restLine);
    assert ([','] + restLine)[1..] == restLine;
  }

  // ---------------------------------------------------------------- the CSV export

  const CsvHeader: string := "ID,Name,Roll No,Department,Email,Phone,Marks,Grade,Status"

  /** The nine values of a student's CSV row, before escaping. */
  function CsvValues(s: StudentRecord, fmt: real -> string): (v: seq<string>)
    ensures |v| == 9
  {
    [IntToString(s.id), s.name, s.rollNo, s.department, s.email, s.phone, fmt(s.marks), s.Grade(), s.StatusText()]
  }

  /** The nine cells of the row: name, roll no, department, email and phone escaped; id, marks, grade and status as they are. */
  function CsvCells(s: StudentRecord, fmt: real -> string): (c: seq<string>)
    ensures |c| == 9
  {
    [IntToString(s.id),
     EscapeCsvField(Some(s.name)), EscapeCsvField(Some(s.rollNo)), EscapeCsvField(Some(s.department)),
     EscapeCsvField(Some(s.email)), EscapeCsvField(Some(s.phone)),
     fmt(s.marks), s.Grade(), s.StatusText()]
  }

  /** The line printed for one student. */
  function CsvLine(s: StudentRecord, fmt: real -> string): string {
    Join(CsvCells(s, fmt), ',')
  }

  lemma {:induction false} DigitsNeedNoQuoting(t: string)
    requires forall k :: 0 <= k < |t| ==> IsDigit(t[k]) || t[k] == '-'
    ensures !NeedsQuoting(t)
  {
  }

  lemma {:induction false} GradeNeedsNoQuoting(s: StudentRecord)
    ensures !NeedsQuoting(s.Grade()) && !NeedsQuoting(s.StatusText())
  {
    var g := s.Grade();
    assert g == "A+" || g == "A" || g == "B" || g == "C" || g == "D" || g == "F";
  }

  /** The row's cells are its values escaped one by one (escaping leaves id, marks, grade and status alone). */
  lemma {:induction false} CsvCellsEscaped(s: StudentRecord, fmt: real -> string)
    requires !NeedsQuoting(fmt(s.marks))
    ensures CsvCells(s, fmt) == EscapeAll(CsvValues(s, fmt))
  {
    var v := CsvValues(s, fmt);
    var c := CsvCells(s, fmt);
    var e := EscapeAll(v);
    DigitsNeedNoQuoting(IntToString(s.id));
    GradeNeedsNoQuoting(s);
    assert c[0] == e[0] && c[6] == e[6] && c[7] == e[7] && c[8] == e[8];
    assert c[1] == e[1] && c[2] == e[2] && c[3] == e[3] && c[4] == e[4] && c[5] == e[5];
  }

  /**
   * A CSV row reads back as the student's values, provided the formatted marks need no
   * quoting (marks are written unescaped, so a locale whose decimal separator is a comma
   * would shift every later column).
   */
  lemma {:induction false} CsvRowRoundTrip(s: StudentRecord, fmt: real -> string)
    requires !NeedsQuoting(fmt(s.marks))
    ensures ParseCsvLine(CsvLine(s, fmt)) == CsvValues(s, fmt)
  {
    CsvCellsEscaped(s, fmt);
    CsvLineRoundTrip(CsvValues(s, fmt));
  }

  /** ExportUtil.exportToCSV: the header, then one line per student in list order. */
  method ExportToCsv(students: seq<StudentRecord>, fmt: real -> string) returns (lines: seq<string>)
    ensures |lines| == |students| + 1
    ensures lines[0] == CsvHeader
    ensures forall i :: 0 <= i < |students| ==> lines[i + 1] == CsvLine(students[i], fmt)
  {
    lines := [CsvHeader];
    for i := 0 to |students|
      invariant |lines| == i + 1
      invariant lines[0] == CsvHeader
      invariant forall j :: 0 <= j < i ==> lines[j + 1] == CsvLine(students[j], fmt)
    {
      lines := lines + [CsvLine(students[i], fmt)];
    }
  }

  // ---------------------------------------------------------------- the text export

  /** ExportUtil.truncate: null becomes empty; a longer string keeps maxLength - 3 characters and gains "...". */
  function Truncate(str: Option<string>, maxLength: int): (r: string)
    requires str.None? || |str.value| <= maxLength || maxLength >= 3
    ensures str.None? ==> r == ""
    ensures str.Some? && |str.value| <= maxLength ==> r == str.value
    ensures str.Some? && |str.value| > maxLength ==>
      |r| == maxLength && r[..maxLength - 3] == str.value[..maxLength - 3] && r[maxLength - 3..] == "..."
  {
    match str
    case None => ""
    case Some(s) => if |s| <= maxLength then s else s[..maxLength - 3] + "..."
  }

  /** A truncated string never exceeds the limit. */
  lemma {:induction false} TruncateFits(str: Option<string>, maxLength: nat)
    requires str.None? || |str.value| <= maxLength || maxLength >= 3
    ensures |Truncate(str, maxLength)| <= maxLength
  {
  }

  /** "=".repeat(80) and "-".repeat(80), written out. */
  const EqualsRule: string := "================================================================================"
  const DashRule: string := "--------------------------------------------------------------------------------"

  /**
   * The nine cells of a student's row ("%-5d %-20s %-10s %-20s %-25s %-15s %-8.2f %-6s %-6s"):
   * name, department and email cut to 18, 18 and 23 characters, then every cell padded.
   */
  function TextCells(s: StudentRecord, fmt: real -> string): (c: seq<string>)
    ensures |c| == 9
  {
    [PadRight(IntToString(s.id), 5),
     PadRight(Truncate(Some(s.name), 18), 20),
     PadRight(s.rollNo, 10),
     PadRight(Truncate(Some(s.department), 18), 20),
     PadRight(Truncate(Some(s.email), 23), 25),
     PadRight(s.phone, 15),
     PadRight(fmt(s.marks), 8),
     PadRight(s.Grade(), 6),
     PadRight(s.StatusText(), 6)]
  }

  function TextRow(s: StudentRecord, fmt: real -> string): string {
    Join(TextCells(s, fmt), ' ')
  }

  /** A string cut to `cut` characters and padded to `width` fills its column exactly and shows the cut as "...". */
  lemma {:induction false} PaddedTruncation(str: string, cut: nat, width: nat)
    requires 3 <= cut <= width
    ensures var c := PadRight(Truncate(Some(str), cut), width);
      |c| == width &&
      (|str| <= cut ==> c[..|str|] == str) &&
      (|str| > cut ==> c[..cut] == str[..cut - 3] + "...")
  {
    var t := Truncate(Some(str), cut);
    var c := PadRight(t, width);
    assert c[..|t|] == t;
    if |str| > cut {
      assert t == str[..cut - 3] + "...";
    }
  }

  /**
   * Name, department and email always fill exactly their columns (they are cut to 18, 18
   * and 23 characters), while roll no and phone are printed in full, however long.
   */
  lemma {:induction false} TextCellsLayout(s: StudentRecord, fmt: real -> string)
    ensures var c := TextCells(s, fmt);
      |c[1]| == 20 && |c[3]| == 20 && |c[4]| == 25 &&
      (|s.name| <= 18 ==> c[1][..|s.name|] == s.name) &&
      (|s.name| > 18 ==> c[1][..18] == s.name[..15] + "...") &&
      (|s.department| > 18 ==> c[3][..18] == s.department[..15] + "...") &&
      (|s.email| > 23 ==> c[4][..23] == s.email[..20] + "...") &&
      |c[2]| >= |s.rollNo| && c[2][..|s.rollNo|] == s.rollNo &&
      |c[5]| >= |s.phone| && c[5][..|s.phone|] == s.phone
  {
    PaddedTruncation(s.name, 18, 20);
    PaddedTruncation(s.department, 18, 20);
    PaddedTruncation(s.email, 23, 25);
  }

  /** The column titles ID, Name, Roll No, Department, Email, Phone, Marks, Grade, Status, each padded to its column's width. */
  const TextHeaderRow: string :=
    "ID    Name                 Roll No    Department           Email                     Phone           Marks    Grade  Status"

  /** The report header: title, timestamp, count, rule, blank line, column titles, rule. */
  function TextPreamble(count: nat, timestamp: string): (lines: seq<string>)
    ensures |lines| == 7
  {
    ["STUDENT MANAGEMENT SYSTEM - EXPORT REPORT",
     "Generated on: " + timestamp,
     "Total Students: " + IntToString(count),
     EqualsRule,
     "",
     TextHeaderRow,
     DashRule]
  }

  /** The count lines of the summary block. */
  function CountLines(total: int, passed: int, failed: int): (lines: seq<string>)
    ensures |lines| == 6
  {
    ["",
     EqualsRule,
     "SUMMARY:",
     "Total Students: " + IntToString(total),
     "Passed: " + IntToString(passed),
     "Failed: " + IntToString(failed)]
  }

  /** The marks lines of the summary block, printed only for a non-empty list. */
  function MarksLines(students: seq<StudentRecord>, fmt: real -> string): (lines: seq<string>)
    ensures |lines| == if students == [] then 0 else 3
  {
    if students == [] then []
    else
      var m := Statistics.Marks(students);
      ["Average Marks: " + fmt(Statistics.Average(m)),
       "Highest Marks: " + fmt(Statistics.Max(m)),
       "Lowest Marks: " + fmt(Statistics.Min(m))]
  }

  /** The summary block. */
  function TextSummary(students: seq<StudentRecord>, fmt: real -> string): seq<string> {
    CountLines(|students|, Statistics.PassedCount(students), Statistics.FailedCount(students))
    + MarksLines(students, fmt)
  }

  /**
   * The summary shows the list size, the number passing, and on the Failed line a count
   * equal to the total minus the Passed figure.
   */
  lemma {:induction false} SummaryCounts(students: seq<StudentRecord>, fmt: real -> string)
    ensures |TextSummary(students, fmt)| >= 6
    ensures TextSummary(students, fmt)[3] == "Total Students: " + IntToString(|students|)
    ensures TextSummary(students, fmt)[4] == "Passed: " + IntToString(Statistics.PassedCount(students))
    ensures TextSummary(students, fmt)[5] == "Failed: " + IntToString(Statistics.FailedCount(students))
    ensures Statistics.FailedCount(students) == |students| - Statistics.PassedCount(students)
  {
    Statistics.PassedAndFailedPartition(students);
    var c := CountLines(|students|, Statistics.PassedCount(students), Statistics.FailedCount(students));
    var t := MarksLines(students, fmt);
    assert (c + t)[3] == c[3] && (c + t)[4] == c[4] && (c + t)[5] == c[5];
  }

  /** One row per student, in list order. */
  function TextRows(students: seq<StudentRecord>, fmt: real -> string): seq<string> {
    seq(|students|, i requires 0 <= i < |students| => TextRow(students[i], fmt))
  }

  /** The whole text report. */
  function TextReport(students: seq<StudentRecord>, timestamp: string, fmt: real -> string): seq<string> {
    TextPreamble(|students|, timestamp) + TextRows(students, fmt) + TextSummary(students, fmt)
  }

  /** The three parts of a concatenation, recovered by slicing. */
  lemma {:induction false} ConcatParts<T>(a: seq<T>, b: seq<T>, c: seq<T>)
    ensures (a + b + c)[..|a|] == a
    ensures (a + b + c)[|a| + |b|..] == c
    ensures (a + b + c)[|a|..|a| + |b|] == b
  {
    assert (a + b + c)[..|a|] == a;
    assert (a + b + c)[|a| + |b|..] == c;
    assert (a + b + c)[|a|..|a| + |b|] == b;
  }

  /**
   * The report is the 7 header lines, one line per student, then the 6-line summary,
   * followed by the 3 marks lines only when the list is not empty.
   */
  lemma {:induction false} TextReportParts(students: seq<StudentRecord>, timestamp: string, fmt: real -> string)
    ensures var r := TextReport(students, timestamp, fmt);
      |r| == 7 + |students| + (if students == [] then 6 else 9) &&
      r[..7] == TextPreamble(|students|, timestamp) &&
      r[7 + |students|..] == TextSummary(students, fmt)
  {
    ConcatParts(TextPreamble(|students|, timestamp), TextRows(students, fmt), TextSummary(students, fmt));
  }

  /** Lines 7 to 7 + |students| of the report are the students' rows, in list order. */
  lemma {:induction false} TextReportRows(students: seq<StudentRecord>, timestamp: string, fmt: real -> string)
    ensures |TextReport(students, timestamp, fmt)| >= 7 + |students|
    ensures TextReport(students, timestamp, fmt)[7..7 + |students|] == TextRows(students, fmt)
  {
    ConcatParts(TextPreamble(|students|, timestamp), TextRows(students, fmt), TextSummary(students, fmt));
  }

  /** The body of the report, one row per student; the loop of ExportUtil.exportToText. */
  method WriteTextRows(students: seq<StudentRecord>, fmt: real -> string) returns (rows: seq<string>)
    ensures rows == TextRows(students, fmt)
  {
    rows := [];
    for i := 0 to |students|
      invariant rows == TextRows(students, fmt)[..i]
    {
      PrefixStep(TextRows(students, fmt), i);
      rows := rows + [TextRow(students[i], fmt)];
    }
    assert TextRows(students, fmt)[..|students|] == TextRows(students, fmt);
  }

  /** ExportUtil.exportToText: the report's lines, header first, then the rows, then the summary. */
  method ExportToText(students: seq<StudentRecord>, timestamp: string, fmt: real -> string) returns (lines: seq<string>)
    ensures lines == TextReport(students, timestamp, fmt)
  {
    lines := TextPreamble(|students|, timestamp);
    var rows := WriteTextRows(students, fmt);
    lines := lines + rows + TextSummary(students, fmt);
  }
}
