/**
 * MainFrame: the student table and the search bar. Choosing what to ask the store is a pure
 * decision (`PlanSearch`); the frame object then runs it and refreshes its table, its status
 * line and the error dialogs it has shown.
 */
module MainFrame {
  import opened Wrappers
  import opened JavaLang
  import opened StudentModel
  import opened StudentDao
  import ExportUtil

  // ---------------------------------------------------------------- table rows

  /** A table cell: the ID column holds an Integer, every other column a String. */
  datatype Cell = IntCell(number: int) | TextCell(text: string)

  /** The text a cell shows. */
  function CellText(c: Cell): string {
    match c
    case IntCell(i) => IntToString(i)
    case TextCell(t) => t
  }

  /** The nine cells updateTable adds for one student; marks go through "%.2f" (`fmt`). */
  function TableRow(s: StudentRecord, fmt: real -> string): (row: seq<Cell>)
    ensures |row| == 9
  {
    [IntCell(s.id), TextCell(s.name), TextCell(s.rollNo), TextCell(s.department), TextCell(s.email),
     TextCell(s.phone), TextCell(fmt(s.marks)), TextCell(s.Grade()), TextCell(if s.Passed() then "Pass" else "Fail")]
  }

  /**
   * Column for column, the table shows the values the CSV export writes for the same
   * student (before escaping), status "Pass" exactly when the student passes.
   */
  lemma {:induction false} TableRowShowsCsvValues(s: StudentRecord, fmt: real -> string)
    ensures forall j :: 0 <= j < 9 ==> CellText(TableRow(s, fmt)[j]) == ExportUtil.CsvValues(s, fmt)[j]
    ensures CellText(TableRow(s, fmt)[8]) == "Pass" <==> s.marks >= 50.0
  {
  }

  /** `rows` is exactly one row per student, in list order. */
  predicate Shows(rows: seq<seq<Cell>>, students: seq<StudentRecord>, fmt: real -> string) {
    |rows| == |students| && forall i :: 0 <= i < |rows| ==> rows[i] == TableRow(students[i], fmt)
  }

  // ---------------------------------------------------------------- search dispatch

  const RangeFormatMessage: string := "Please enter marks range as 'min-max' (e.g., 70-90)"
  const RangeNumberMessage: string := "Invalid marks range format"

  /** What performSearch does: reload everything, run one search, or show an error and stop. */
  datatype SearchPlan = Reload | Run(query: Query) | Reject(message: string)

  /**
   * MainFrame.performSearch's decision for the search field's text and the selected search
   * type; `parse` is Double.parseDouble (None where it throws).
   */
  function PlanSearch(searchText: string, searchType: string, parse: string -> Option<JavaDouble>): (plan: SearchPlan)
    ensures Trim(searchText) == [] ==> plan == Reload
    ensures plan.Run? ==> !plan.query.AllStudents?
    ensures plan == Run(ByName(Trim(searchText))) <==> Trim(searchText) != [] && searchType == "Name"
    ensures plan == Run(ByRollNo(Trim(searchText))) <==> Trim(searchText) != [] && searchType == "Roll No"
    ensures plan == Run(ByDepartment(Trim(searchText))) <==> Trim(searchText) != [] && searchType == "Department"
    ensures plan.Run? && plan.query.ByName? ==> plan.query.name == Trim(searchText)
    ensures plan.Run? && plan.query.ByRollNo? ==> plan.query.rollNo == Trim(searchText)
    ensures plan.Run? && plan.query.ByDepartment? ==> plan.query.department == Trim(searchText)
    ensures (plan.Reject? || (plan.Run? && plan.query.ByMarksRange?)) <==>
      Trim(searchText) != [] && searchType == "Marks Range"
    ensures plan.Reject? ==> plan.message == RangeFormatMessage || plan.message == RangeNumberMessage
  {
    var text := Trim(searchText);
    if text == [] then Reload
    else if searchType == "Name" then Run(ByName(text))
    else if searchType == "Roll No" then Run(ByRollNo(text))
    else if searchType == "Department" then Run(ByDepartment(text))
    else if searchType == "Marks Range" then PlanRange(text, parse)
    else Reload
  }

  /**
   * The "Marks Range" branch for non-empty trimmed text: split on '-', demand exactly two
   * pieces, and parse both trimmed pieces.
   */
  function PlanRange(text: string, parse: string -> Option<JavaDouble>): (plan: SearchPlan)
    ensures plan.Reject? || (plan.Run? && plan.query.ByMarksRange?)
    ensures plan.Reject? ==> plan.message == RangeFormatMessage || plan.message == RangeNumberMessage
    ensures plan == Reject(RangeFormatMessage) <==> |Split(text, '-')| != 2
    ensures plan == Reject(RangeNumberMessage) <==>
      |Split(text, '-')| == 2 &&
      (parse(Trim(Split(text, '-')[0])).None? || parse(Trim(Split(text, '-')[1])).None?)
  {
    var range := Split(text, '-');
    if |range| == 2 then
      match (parse(Trim(range[0])), parse(Trim(range[1])))
      case (Some(min), Some(max)) => Run(ByMarksRange(min, max))
      case _ => Reject(RangeNumberMessage)
    else Reject(RangeFormatMessage)
  }

  /** Any other search type, "All" included, reloads the whole list. */
  lemma {:induction false} OtherTypesReload(searchText: string, searchType: string, parse: string -> Option<JavaDouble>)
    requires searchType !in ["Name", "Roll No", "Department", "Marks Range"]
    ensures PlanSearch(searchText, searchType, parse) == Reload
  {
  }

  /** Only the trimmed text matters: surrounding blanks never change the decision. */
  lemma {:induction false} SearchIgnoresSurroundingBlanks(searchText: string, searchType: string, parse: string -> Option<JavaDouble>)
    ensures PlanSearch(searchText, searchType, parse) == PlanSearch(Trim(searchText), searchType, parse)
  {
    TrimIdempotent(searchText);
  }

  /** A marks-range search of non-empty text is decided by the range rule alone. */
  lemma {:induction false} MarksRangeUsesRangeRule(searchText: string, parse: string -> Option<JavaDouble>)
    requires Trim(searchText) != []
    ensures PlanSearch(searchText, "Marks Range", parse) == PlanRange(Trim(searchText), parse)
  {
  }

  /**
   * "a-b" (possibly followed by more dashes, which split drops) runs the marks-range search
   * with the two parsed bounds in the order written; there is no check that min <= max.
   */
  lemma {:induction false} MarksRangeRuns(text: string, parse: string -> Option<JavaDouble>, a: string, b: string, k: nat, min: JavaDouble, max: JavaDouble)
    requires text == a + "-" + b + Repeat('-', k)
    requires '-' !in a && '-' !in b && b != []
    requires parse(Trim(a)) == Some(min) && parse(Trim(b)) == Some(max)
    ensures PlanRange(text, parse) == Run(ByMarksRange(min, max))
  {
    SplitTwoPieces(a, b, '-', k);
  }

  /**
   * Conversely, a marks-range search runs only for text of the form a-b (plus trailing
   * dashes) whose two parts, trimmed, parse to the bounds passed on.
   */
  lemma {:induction false} MarksRangeShape(text: string, parse: string -> Option<JavaDouble>, min: JavaDouble, max: JavaDouble)
    requires PlanRange(text, parse) == Run(ByMarksRange(min, max))
    ensures var range := Split(text, '-');
      |range| == 2 && range[1] != [] && |text| >= |range[0]| + 1 + |range[1]| &&
      text == range[0] + "-" + range[1] + Repeat('-', |text| - |range[0]| - 1 - |range[1]|) &&
      parse(Trim(range[0])) == Some(min) && parse(Trim(range[1])) == Some(max)
  {
    SplitTwoShape(text, '-');
  }

  /** "70-": the trailing empty piece is dropped, one piece is left, and the format error is shown. */
  lemma {:induction false} TrailingDashIsRejected(text: string, parse: string -> Option<JavaDouble>, a: string)
    requires text == a + "-"
    requires '-' !in a && a != []
    ensures PlanRange(text, parse) == Reject(RangeFormatMessage)
  {
    assert text == a + ['-'] + [];
    PiecesAfter(a, '-', []);
    assert Pieces(text, '-') == [a] + Pieces([], '-');
    assert Pieces([], '-') == [[]];
    assert [a] + [[]] == [a] + Empties(1);
    DropEmptyTail([a], 1);
  }

  /** "-5-10": a leading dash makes three pieces, so a negative lower bound is rejected as badly formatted. */
  lemma {:induction false} LeadingDashIsRejected(text: string, parse: string -> Option<JavaDouble>, a: string, b: string)
    requires text == "-" + a + "-" + b
    requires '-' !in a && '-' !in b && b != []
    ensures PlanRange(text, parse) == Reject(RangeFormatMessage)
  {
    var rest := a + ['-'] + b;
    assert text == [] + ['-'] + rest;
    assert text[0] == '-';
    PiecesAfter([], '-', rest);
    PiecesAfter(a, '-', b);
    assert IndexOf(b, '-') == -1;
    assert Pieces(b, '-') == [b];
    var p := Pieces(text, '-');
    assert p == [[], a, b];
    assert DropTrailingEmpty(p) == p;
  }

  // ---------------------------------------------------------------- the frame

  class MainFrame {
    /** The rows of the table model. */
    var rows: seq<seq<Cell>>
    /** The status line. */
    var status: string
    /** The error dialogs shown so far, oldest first. */
    var errors: seq<string>

    constructor()
      ensures rows == [] && status == "Ready" && errors == []
    {
      rows := [];
      status := "Ready";
      errors := [];
    }

    /** MainFrame.updateTable: clears the table, then adds one row per student in list order. */
    method UpdateTable(students: seq<StudentRecord>, fmt: real -> string)
      modifies this
      ensures Shows(rows, students, fmt)
      ensures status == old(status) && errors == old(errors)
    {
      rows := [];
      for i := 0 to |students|
        invariant |rows| == i
        invariant forall j :: 0 <= j < i ==> rows[j] == TableRow(students[j], fmt)
        invariant status == old(status) && errors == old(errors)
      {
        rows := rows + [TableRow(students[i], fmt)];
      }
    }

    /** MainFrame.loadStudents: on success the table shows every student; on failure only an error is shown. */
    method LoadStudents(answers: Answers, fmt: real -> string)
      modifies this
      ensures answers(AllStudents).Ok? ==>
        Shows(rows, answers(AllStudents).value, fmt) &&
        status == "Loaded " + IntToString(|answers(AllStudents).value|) + " students" &&
        errors == old(errors)
      ensures answers(AllStudents).Err? ==>
        rows == old(rows) && status == old(status) &&
        errors == old(errors) + ["Error loading students: " + answers(AllStudents).message]
    {
      var result := answers(AllStudents);
      match result
      case Ok(students) =>
        UpdateTable(students, fmt);
        status := "Loaded " + IntToString(|students|) + " students";
      case Err(message) =>
        errors := errors + ["Error loading students: " + message];
    }

    /**
     * MainFrame.performSearch. The table and the status line change only after a store call
     * that succeeded; a rejected range or a failed call leaves both as they were and shows
     * one error.
     */
    method PerformSearch(searchText: string, searchType: string, answers: Answers,
                         parse: string -> Option<JavaDouble>, fmt: real -> string)
      modifies this
      ensures var plan := PlanSearch(searchText, searchType, parse);
        plan.Reject? ==> rows == old(rows) && status == old(status) && errors == old(errors) + [plan.message]
      ensures var plan := PlanSearch(searchText, searchType, parse);
        plan.Reload? && answers(AllStudents).Ok? ==>
          Shows(rows, answers(AllStudents).value, fmt) &&
          status == "Loaded " + IntToString(|answers(AllStudents).value|) + " students" &&
          errors == old(errors)
      ensures var plan := PlanSearch(searchText, searchType, parse);
        plan.Reload? && answers(AllStudents).Err? ==>
          rows == old(rows) && status == old(status) &&
          errors == old(errors) + ["Error loading students: " + answers(AllStudents).message]
      ensures var plan := PlanSearch(searchText, searchType, parse);
        plan.Run? && answers(plan.query).Ok? ==>
          Shows(rows, answers(plan.query).value, fmt) &&
          status == "Found " + IntToString(|answers(plan.query).value|) + " students" &&
          errors == old(errors)
      ensures var plan := PlanSearch(searchText, searchType, parse);
        plan.Run? && answers(plan.query).Err? ==>
          rows == old(rows) && status == old(status) &&
          errors == old(errors) + ["Error searching: " + answers(plan.query).message]
    {
      var plan := PlanSearch(searchText, searchType, parse);
      match plan
      case Reload =>
        LoadStudents(answers, fmt);
      case Reject(message) =>
        errors := errors + [message];
      case Run(query) =>
        var result := answers(query);
        match result
        case Ok(students) =>
          UpdateTable(students, fmt);
          status := "Found " + IntToString(|students|) + " students";
        case Err(message) =>
          errors := errors + ["Error searching: " + message];
    }
  }
}
