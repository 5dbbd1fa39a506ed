/**
 * StudentForm: the add/edit dialog. Its grade preview, the validation of its fields, the
 * department list it offers and the rule by which saving adds or updates a student.
 */
module StudentForm {
  import opened Wrappers
  import opened JavaLang
  import GradeCalculator
  import opened StudentModel
  import opened StudentDao

  // ---------------------------------------------------------------- grade preview

  /** StudentForm.calculateGrade: the dialog's own copy of the grade table. */
  function CalculateGrade(marks: real): (g: string)
    ensures g == GradeCalculator.CalculateGrade(marks)
  {
    if marks >= 90.0 then "A+"
    else if marks >= 80.0 then "A"
    else if marks >= 70.0 then "B"
    else if marks >= 60.0 then "C"
    else if marks >= 50.0 then "D"
    else "F"
  }

  /** Marks that are a number in [0, 100]. */
  predicate MarksInRange(d: JavaDouble) {
    AtLeast(d, 0.0) && AtMost(d, 100.0)
  }

  /** What the grade and status labels show while marks are typed. */
  datatype GradePreview = NoMarks | Graded(grade: string, passed: bool) | InvalidMarks
  {
    function GradeLabel(): string {
      match this
      case NoMarks => "Grade: -"
      case Graded(g, _) => "Grade: " + g
      case InvalidMarks => "Grade: Invalid"
    }

    function StatusLabel(): string {
      match this
      case NoMarks => "Status: -"
      case Graded(_, p) => if p then "Status: Pass" else "Status: Fail"
      case InvalidMarks => "Status: Invalid"
    }
  }

  /** StudentForm.updateGrade: the preview for the marks field's text. */
  function UpdateGrade(marksText: string, parse: string -> Option<JavaDouble>): (p: GradePreview)
    ensures p == NoMarks <==> Trim(marksText) == []
    ensures p.Graded? <==> Trim(marksText) != [] && parse(Trim(marksText)).Some? && MarksInRange(parse(Trim(marksText)).value)
    ensures p.Graded? ==>
      var m := parse(Trim(marksText)).value.value;
      p.grade == GradeCalculator.CalculateGrade(m) && (p.passed <==> GradeCalculator.IsPassed(m))
  {
    var text := Trim(marksText);
    if text == [] then NoMarks
    else
      match parse(text)
      case None => InvalidMarks
      case Some(d) =>
        if MarksInRange(d) then Graded(CalculateGrade(d.value), d.value >= 50.0) else InvalidMarks
  }

  // ---------------------------------------------------------------- email and phone

  /** A character of [A-Za-z0-9+_.-]. */
  predicate IsEmailLocalChar(c: char) {
    ('A' <= c <= 'Z') || ('a' <= c <= 'z') || ('0' <= c <= '9') || c == '+' || c == '_' || c == '.' || c == '-'
  }

  /** The characters a regular-expression '.' does not match. */
  predicate IsLineTerminator(c: char) {
    c == '\n' || c == '\r' || c == '\U{0085}' || c == '\U{2028}' || c == '\U{2029}'
  }

  /** What "^[A-Za-z0-9+_.-]+@(.+)$" matches: a local part of allowed characters, '@', and a non-empty rest on one line. */
  ghost predicate MatchesEmailPattern(email: string) {
    exists k :: 0 < k < |email| - 1 && email[k] == '@' &&
      (forall j :: 0 <= j < k ==> IsEmailLocalChar(email[j])) &&
      (forall j :: k < j < |email| ==> !IsLineTerminator(email[j]))
  }

  /** StudentForm.isValidEmail, as a scan: the local part ends at the first '@'. */
  predicate IsValidEmail(email: string) {
    var at := IndexOf(email, '@');
    1 <= at < |email| - 1 &&
    (forall j :: 0 <= j < at ==> IsEmailLocalChar(email[j])) &&
    (forall j :: at < j < |email| ==> !IsLineTerminator(email[j]))
  }

  /** The scan accepts exactly the strings the pattern matches. */
  lemma {:induction false} EmailScanMatchesPattern(email: string)
    ensures IsValidEmail(email) <==> MatchesEmailPattern(email)
  {
    if MatchesEmailPattern(email) {
      var k :| 0 < k < |email| - 1 && email[k] == '@' &&
        (forall j :: 0 <= j < k ==> IsEmailLocalChar(email[j])) &&
        (forall j :: k < j < |email| ==> !IsLineTerminator(email[j]));
      var at := IndexOf(email, '@');
      assert at == k;
    }
    if IsValidEmail(email) {
      var at := IndexOf(email, '@');
      assert email[at] == '@';
    }
  }

  /** StudentForm.isValidPhone: "^[0-9]{10,15}$". */
  predicate IsValidPhone(phone: string) {
    10 <= |phone| <= 15 && forall j :: 0 <= j < |phone| ==> IsDigit(phone[j])
  }

  // ---------------------------------------------------------------- validation

  /** The dialog's fields, in the order validateInput checks them. */
  datatype FormField = Name | RollNo | Department | Email | Phone | Marks
  {
    function Rank(): nat {
      match this
      case Name => 0
      case RollNo => 1
      case Department => 2
      case Email => 3
      case Phone => 4
      case Marks => 5
    }
  }

  /** The raw contents of the dialog: the text fields and the department selection. */
  datatype FormInput = FormInput(
    name: string,
    rollNo: string,
    department: Option<string>,
    email: string,
    phone: string,
    marks: string)

  /** validateInput's answer: accepted, or the first field rejected with the message shown. */
  datatype Verdict = Accepted | Rejected(field: FormField, message: string)

  /** Whether a field passes its check; `outOfRange` is the marks range test used. */
  predicate FieldValid(input: FormInput, f: FormField, parse: string -> Option<JavaDouble>, outOfRange: JavaDouble -> bool) {
    match f
    case Name => Trim(input.name) != []
    case RollNo => Trim(input.rollNo) != []
    case Department => input.department.Some?
    case Email => Trim(input.email) == [] || IsValidEmail(Trim(input.email))
    case Phone => Trim(input.phone) == [] || IsValidPhone(Trim(input.phone))
    case Marks => parse(Trim(input.marks)).Some? && !outOfRange(parse(Trim(input.marks)).value)
  }

  /** The error message validateInput shows for a field; the marks have two. */
  function RejectionMessage(f: FormField, marksUnparsable: bool): string {
    match f
    case Name => "Please enter student name"
    case RollNo => "Please enter roll number"
    case Department => "Please select a department"
    case Email => "Please enter a valid email address"
    case Phone => "Please enter a valid phone number"
    case Marks => if marksUnparsable then "Please enter valid marks" else "Marks must be between 0 and 100"
  }

  /** validateInput's checks in order, stopping at the first failure. */
  function Validate(input: FormInput, parse: string -> Option<JavaDouble>, outOfRange: JavaDouble -> bool): Verdict {
    var unparsable := parse(Trim(input.marks)).None?;
    if !FieldValid(input, Name, parse, outOfRange) then Rejected(Name, RejectionMessage(Name, unparsable))
    else if !FieldValid(input, RollNo, parse, outOfRange) then Rejected(RollNo, RejectionMessage(RollNo, unparsable))
    else if !FieldValid(input, Department, parse, outOfRange) then Rejected(Department, RejectionMessage(Department, unparsable))
    else if !FieldValid(input, Email, parse, outOfRange) then Rejected(Email, RejectionMessage(Email, unparsable))
    else if !FieldValid(input, Phone, parse, outOfRange) then Rejected(Phone, RejectionMessage(Phone, unparsable))
    else if !FieldValid(input, Marks, parse, outOfRange) then Rejected(Marks, RejectionMessage(Marks, unparsable))
    else Accepted
  }

  /** The input is accepted exactly when every field passes; a rejection names the first field that fails. */
  lemma {:induction false} ValidateFindsFirstInvalid(input: FormInput, parse: string -> Option<JavaDouble>, outOfRange: JavaDouble -> bool)
    ensures Validate(input, parse, outOfRange).Accepted? <==> forall f: FormField :: FieldValid(input, f, parse, outOfRange)
    ensures Validate(input, parse, outOfRange).Rejected? ==>
      var v := Validate(input, parse, outOfRange);
      !FieldValid(input, v.field, parse, outOfRange) &&
      (forall f: FormField :: f.Rank() < v.field.Rank() ==> FieldValid(input, f, parse, outOfRange)) &&
      v.message == RejectionMessage(v.field, parse(Trim(input.marks)).None?)
  {
    var v := Validate(input, parse, outOfRange);
    if v.Accepted? {
      forall f: FormField
        ensures FieldValid(input, f, parse, outOfRange)
      {
      }
    } else {
      assert !FieldValid(input, v.field, parse, outOfRange);
      forall f: FormField | f.Rank() < v.field.Rank()
        ensures FieldValid(input, f, parse, outOfRange)
      {
      }
    }
  }

  /** The range test as written, `marks < 0 || marks > 100`: false for NaN. */
  predicate OutOfRangeAsWritten(d: JavaDouble) {
    Below(d, 0.0) || Above(d, 100.0)
  }

  /** The intended range test: anything that is not a number in [0, 100]. */
  predicate OutOfRange(d: JavaDouble) {
    !MarksInRange(d)
  }

  /** StudentForm.validateInput as written. */
  function ValidateInputAsWritten(input: FormInput, parse: string -> Option<JavaDouble>): Verdict {
    Validate(input, parse, OutOfRangeAsWritten)
  }

  /** StudentForm.validateInput with the marks range test it evidently intends. */
  function ValidateInput(input: FormInput, parse: string -> Option<JavaDouble>): Verdict {
    Validate(input, parse, OutOfRange)
  }

  /**
   * As written, marks that parse to NaN ("NaN") pass validation although the grade preview
   * calls them Invalid; the intended check rejects them with the range message.
   */
  lemma {:induction false} NaNMarksPassAsWritten(input: FormInput, parse: string -> Option<JavaDouble>)
    requires forall f: FormField :: f != Marks ==> FieldValid(input, f, parse, OutOfRange)
    requires parse(Trim(input.marks)) == Some(NaN)
    requires parse([]).None?
    ensures ValidateInputAsWritten(input, parse) == Accepted
    ensures ValidateInput(input, parse) == Rejected(Marks, "Marks must be between 0 and 100")
    ensures UpdateGrade(input.marks, parse) == InvalidMarks
  {
    forall f: FormField
      ensures FieldValid(input, f, parse, OutOfRangeAsWritten)
    {
      if f != Marks {
        assert FieldValid(input, f, parse, OutOfRange);
      }
    }
    ValidateFindsFirstInvalid(input, parse, OutOfRangeAsWritten);
    var v := ValidateInput(input, parse);
    assert !FieldValid(input, Marks, parse, OutOfRange);
    ValidateFindsFirstInvalid(input, parse, OutOfRange);
    assert v.Rejected? && v.field == Marks;
  }

  /**
   * With the intended check, the marks pass validation exactly when the preview shows a
   * grade (parseDouble rejects the empty string).
   */
  lemma {:induction false} ValidationAgreesWithPreview(input: FormInput, parse: string -> Option<JavaDouble>)
    requires parse([]).None?
    ensures FieldValid(input, Marks, parse, OutOfRange) <==> UpdateGrade(input.marks, parse).Graded?
    ensures ValidateInput(input, parse).Accepted? ==> UpdateGrade(input.marks, parse).Graded?
  {
    ValidateFindsFirstInvalid(input, parse, OutOfRange);
  }

  /** Accepted marks are a number in [0, 100]. */
  lemma {:induction false} AcceptedMarksInRange(input: FormInput, parse: string -> Option<JavaDouble>)
    requires ValidateInput(input, parse).Accepted?
    ensures parse(Trim(input.marks)).Some? && parse(Trim(input.marks)).value.Finite?
    ensures 0.0 <= parse(Trim(input.marks)).value.value <= 100.0
  {
    ValidateFindsFirstInvalid(input, parse, OutOfRange);
    assert FieldValid(input, Marks, parse, OutOfRange);
  }

  /** As written, validation lets through marks that are a number in [0, 100] or NaN, and no others. */
  lemma {:induction false} AsWrittenAcceptsRangeOrNaN(input: FormInput, parse: string -> Option<JavaDouble>)
    requires ValidateInputAsWritten(input, parse).Accepted?
    ensures parse(Trim(input.marks)).Some?
    ensures MarksInRange(parse(Trim(input.marks)).value) || parse(Trim(input.marks)).value == NaN
  {
    ValidateFindsFirstInvalid(input, parse, OutOfRangeAsWritten);
    assert FieldValid(input, Marks, parse, OutOfRangeAsWritten);
  }

  /**
   * The validation as written and the intended one give different verdicts exactly when
   * every other field is valid and the marks parse to NaN.
   */
  lemma {:induction false} ValidationsDifferOnlyOnNaN(input: FormInput, parse: string -> Option<JavaDouble>)
    ensures ValidateInputAsWritten(input, parse) != ValidateInput(input, parse) <==>
      (forall f: FormField :: f != Marks ==> FieldValid(input, f, parse, OutOfRange)) &&
      parse(Trim(input.marks)) == Some(NaN)
  {
    var m := parse(Trim(input.marks));
    if m == Some(NaN) {
      if forall f: FormField :: f != Marks ==> FieldValid(input, f, parse, OutOfRange) {
        NaNAcceptedOnlyAsWritten(input, parse);
      } else {
        EarlierFieldDecides(input, parse, OutOfRange, OutOfRangeAsWritten);
      }
    } else {
      if m.Some? {
        assert OutOfRange(m.value) == OutOfRangeAsWritten(m.value);
      }
      SameMarksCheckSameVerdict(input, parse, OutOfRange, OutOfRangeAsWritten);
    }
  }

  /** Two marks range tests that agree on the marks give the same verdict. */
  lemma {:induction false} SameMarksCheckSameVerdict(input: FormInput, parse: string -> Option<JavaDouble>,
    outOfRange1: JavaDouble -> bool, outOfRange2: JavaDouble -> bool)
    requires FieldValid(input, Marks, parse, outOfRange1) == FieldValid(input, Marks, parse, outOfRange2)
    ensures Validate(input, parse, outOfRange1) == Validate(input, parse, outOfRange2)
  {
  }

  /** When a field before the marks fails, the marks range test does not matter. */
  lemma {:induction false} EarlierFieldDecides(input: FormInput, parse: string -> Option<JavaDouble>,
    outOfRange1: JavaDouble -> bool, outOfRange2: JavaDouble -> bool)
    requires exists f: FormField :: f != Marks && !FieldValid(input, f, parse, outOfRange1)
    ensures Validate(input, parse, outOfRange1) == Validate(input, parse, outOfRange2)
  {
    var f: FormField :| f != Marks && !FieldValid(input, f, parse, outOfRange1);
  }

  /** NaN marks with every other field valid: accepted as written, rejected as intended. */
  lemma {:induction false} NaNAcceptedOnlyAsWritten(input: FormInput, parse: string -> Option<JavaDouble>)
    requires forall f: FormField :: f != Marks ==> FieldValid(input, f, parse, OutOfRange)
    requires parse(Trim(input.marks)) == Some(NaN)
    ensures ValidateInputAsWritten(input, parse).Accepted? && ValidateInput(input, parse).Rejected?
  {
    forall f: FormField
      ensures FieldValid(input, f, parse, OutOfRangeAsWritten)
    {
      if f != Marks {
        assert FieldValid(input, f, parse, OutOfRange);
      }
    }
    ValidateFindsFirstInvalid(input, parse, OutOfRangeAsWritten);
    assert !FieldValid(input, Marks, parse, OutOfRange);
    ValidateFindsFirstInvalid(input, parse, OutOfRange);
  }

  // ---------------------------------------------------------------- departments

  const BuiltInDepartments: seq<string> := [
    "Computer Science", "Electrical Engineering", "Mechanical Engineering",
    "Civil Engineering", "Information Technology", "Electronics & Communication"]

  /** loadDepartments' list: `combo`, then each department from the store not already listed, in order. */
  function MergeDepartments(combo: seq<string>, db: seq<string>): (r: seq<string>)
    decreases |db|
  {
    if db == [] then combo
    else
      var merged := MergeDepartments(combo, db[..|db| - 1]);
      if db[|db| - 1] in merged then merged else merged + [db[|db| - 1]]
  }

  /** The combo's own items stay first, in their order. */
  lemma {:induction false} MergeKeepsPrefix(combo: seq<string>, db: seq<string>)
    ensures combo <= MergeDepartments(combo, db)
    decreases |db|
  {
    if db != [] {
      MergeKeepsPrefix(combo, db[..|db| - 1]);
    }
  }

  /** The merged list holds exactly the combo's items and the store's departments. */
  lemma {:induction false} MergeContents(combo: seq<string>, db: seq<string>)
    ensures forall x :: x in MergeDepartments(combo, db) <==> x in combo || x in db
    decreases |db|
  {
    if db != [] {
      var init := db[..|db| - 1];
      MergeContents(combo, init);
      assert db == init + [db[|db| - 1]];
    }
  }

  /** Merging never introduces a duplicate. */
  lemma {:induction false} MergeDistinct(combo: seq<string>, db: seq<string>)
    requires Distinct(combo)
    ensures Distinct(MergeDepartments(combo, db))
    decreases |db|
  {
    if db != [] {
      MergeDistinct(combo, db[..|db| - 1]);
    }
  }

  /** The combo loadDepartments fills lists no department twice. */
  lemma {:induction false} LoadedDepartmentsDistinct(db: seq<string>)
    ensures Distinct(MergeDepartments(BuiltInDepartments, db))
  {
    MergeDistinct(BuiltInDepartments, db);
  }

  // ---------------------------------------------------------------- the dialog

  class StudentForm {
    /** The department combo's items and its selection. */
    var departments: seq<string>
    var selected: Option<string>
    /** The text fields. */
    var nameText: string
    var rollNoText: string
    var emailText: string
    var phoneText: string
    var marksText: string
    var rollNoEnabled: bool
    /** The student being edited; None when adding. */
    const student: Option<StudentRecord>
    /** Set once a save went through. */
    var confirmed: bool
    /** The error dialogs shown so far, oldest first. */
    var errors: seq<string>

    /** What validateInput reads. */
    function Input(): FormInput
      reads this
    {
      FormInput(nameText, rollNoText, selected, emailText, phoneText, marksText)
    }

    /** While editing, the roll-number field holds the edited student's roll number and is disabled. */
    predicate EditKeepsRollNo()
      reads this
    {
      student.Some? ==> rollNoText == student.value.rollNo && !rollNoEnabled
    }

    /**
     * The dialog as it opens: the department list loaded from the store's answer `db`,
     * then, when editing, the student's data; "%.2f" is `fmt`.
     */
    constructor(student: Option<StudentRecord>, db: Result<seq<string>>, fmt: real -> string)
      ensures this.student == student && !confirmed
      ensures db.Ok? ==> departments == MergeDepartments(BuiltInDepartments, db.value)
      ensures db.Err? ==> departments == [] && errors == ["Error loading departments: " + db.message]
      ensures student.None? ==>
        Input() == FormInput("", "", if db.Ok? then Some(BuiltInDepartments[0]) else None, "", "", "") && rollNoEnabled
      ensures EditKeepsRollNo()
    {
      this.student := student;
      departments := [];
      selected := None;
      nameText, rollNoText, emailText, phoneText, marksText := "", "", "", "", "";
      rollNoEnabled := true;
      confirmed := false;
      errors := [];
      new;
      LoadDepartments(db);
      if student.Some? {
        LoadStudentData(fmt);
      }
    }

    /** JComboBox.addItem: the first item added to an empty combo becomes the selection. */
    method AddItem(item: string)
      modifies this`departments, this`selected
      ensures departments == old(departments) + [item]
      ensures selected == if old(departments) == [] && old(selected).None? then Some(item) else old(selected)
    {
      if departments == [] && selected.None? {
        selected := Some(item);
      }
      departments := departments + [item];
    }

    /** StudentForm.isDepartmentInCombo: a linear scan of the combo's items. */
    method IsDepartmentInCombo(department: string) returns (found: bool)
      ensures found <==> department in departments
    {
      for i := 0 to |departments|
        invariant forall k :: 0 <= k < i ==> departments[k] != department
      {
        if departments[i] == department {
          return true;
        }
      }
      return false;
    }

    /**
     * StudentForm.loadDepartments: the store is asked first; on success the six built-in
     * departments are added, then every store department not yet listed. On failure the
     * combo stays empty.
     */
    method LoadDepartments(db: Result<seq<string>>)
      requires departments == [] && selected.None?
      modifies this`departments, this`selected, this`errors
      ensures db.Err? ==> departments == [] && selected.None? && errors == old(errors) + ["Error loading departments: " + db.message]
      ensures db.Ok? ==>
        (departments == MergeDepartments(BuiltInDepartments, db.value) &&
         selected == Some(BuiltInDepartments[0]) && errors == old(errors))
    {
      match db
      case Err(message) =>
        errors := errors + ["Error loading departments: " + message];
      case Ok(list) =>
        for b := 0 to |BuiltInDepartments|
          invariant departments == BuiltInDepartments[..b]
          invariant b > 0 ==> selected == Some(BuiltInDepartments[0])
          invariant b == 0 ==> selected.None?
          invariant errors == old(errors)
        {
          AddItem(BuiltInDepartments[b]);
        }
        for i := 0 to |list|
          invariant departments == MergeDepartments(BuiltInDepartments, list[..i])
          invariant selected == Some(BuiltInDepartments[0])
          invariant errors == old(errors)
        {
          assert list[..i + 1][..i] == list[..i];
          MergeKeepsPrefix(BuiltInDepartments, list[..i]);
          var present := IsDepartmentInCombo(list[i]);
          if !present {
            AddItem(list[i]);
          }
        }
        assert list[..|list|] == list;
    }

    /**
     * StudentForm.loadStudentData: the fields show the edited student, the roll number can
     * no longer be changed, and the department is selected when the combo lists it.
     */
    method LoadStudentData(fmt: real -> string)
      modifies this`nameText, this`rollNoText, this`emailText, this`phoneText, this`marksText,
        this`rollNoEnabled, this`selected
      ensures student.None? ==> Input() == old(Input()) && rollNoEnabled == old(rollNoEnabled)
      ensures student.Some? ==>
        var s := student.value;
        Input() == FormInput(s.name, s.rollNo,
          if s.department in departments then Some(s.department) else old(selected),
          s.email, s.phone, fmt(s.marks)) &&
        !rollNoEnabled
    {
      if student.Some? {
        var s := student.value;
        nameText := s.name;
        rollNoText := s.rollNo;
        rollNoEnabled := false;
        if s.department in departments {
          selected := Some(s.department);
        }
        emailText := s.email;
        phoneText := s.phone;
        marksText := fmt(s.marks);
      }
    }

    /** Typing into a text field; a disabled field ignores it. */
    method Type(field: FormField, text: string)
      requires field != Department
      requires EditKeepsRollNo()
      modifies this`nameText, this`rollNoText, this`emailText, this`phoneText, this`marksText
      ensures EditKeepsRollNo()
      ensures nameText == if field == Name then text else old(nameText)
      ensures rollNoText == if field == RollNo && rollNoEnabled then text else old(rollNoText)
      ensures emailText == if field == Email then text else old(emailText)
      ensures phoneText == if field == Phone then text else old(phoneText)
      ensures marksText == if field == Marks then text else old(marksText)
    {
      match field
      case Name => nameText := text;
      case RollNo =>
        if rollNoEnabled {
          rollNoText := text;
        }
      case Email => emailText := text;
      case Phone => phoneText := text;
      case Marks => marksText := text;
    }

    /** Picking a department: JComboBox.setSelectedItem ignores an item the combo does not list. */
    method Choose(item: string)
      modifies this`selected
      ensures selected == if item in departments then Some(item) else old(selected)
    {
      if item in departments {
        selected := Some(item);
      }
    }

    /**
     * StudentForm.handleSave. After validation, a new student is built from the trimmed
     * fields (id 0). Adding refuses a roll number the store already has; editing updates
     * the record stored under the edited student's roll number. Only a save that reached
     * the store without error confirms the dialog.
     */
    method HandleSave(store: StudentStore, parse: string -> Option<JavaDouble>)
      modifies this`confirmed, this`errors, store
      ensures store.failure == old(store.failure)
      ensures ValidateInput(Input(), parse).Rejected? ==>
        store.records == old(store.records) && confirmed == old(confirmed) &&
        errors == old(errors) + [ValidateInput(Input(), parse).message]
      ensures ValidateInput(Input(), parse).Accepted? && old(store.failure).Some? ==>
        store.records == old(store.records) && confirmed == old(confirmed) &&
        errors == old(errors) + ["Database error: " + old(store.failure).value]
      ensures ValidateInput(Input(), parse).Accepted? && old(store.failure).None? && student.None? ==>
        var s := NewStudent(Input(), parse);
        if s.rollNo in old(store.records) then
          store.records == old(store.records) && confirmed == old(confirmed) &&
          errors == old(errors) + ["A student with this Roll No already exists!"]
        else
          store.records == old(store.records)[s.rollNo := s] && confirmed && errors == old(errors)
      ensures ValidateInput(Input(), parse).Accepted? && old(store.failure).None? && student.Some? ==>
        var key := student.value.rollNo;
        store.records == (if key in old(store.records) then old(store.records)[key := NewStudent(Input(), parse)] else old(store.records)) &&
        confirmed && errors == old(errors)
    {
      var verdict := ValidateInput(Input(), parse);
      if verdict.Rejected? {
        errors := errors + [verdict.message];
        return;
      }
      var s := NewStudent(Input(), parse);
      var saved: Result<()>;
      if student.None? {
        var taken := store.IsRollNoExists(s.rollNo);
        if taken.Err? {
          errors := errors + ["Database error: " + taken.message];
          return;
        }
        if taken.value {
          errors := errors + ["A student with this Roll No already exists!"];
          return;
        }
        saved := store.InsertStudent(s);
      } else {
        saved := store.UpdateStudent(student.value.rollNo, s);
      }
      if saved.Err? {
        errors := errors + ["Database error: " + saved.message];
        return;
      }
      confirmed := true;
    }
  }

  /** The student handleSave builds from accepted input: trimmed fields, the selected department, id 0. */
  function NewStudent(input: FormInput, parse: string -> Option<JavaDouble>): (s: StudentRecord)
    requires ValidateInput(input, parse).Accepted?
    ensures s.id == 0 && s.rollNo == Trim(input.rollNo) && s.rollNo != [] && s.name != []
    ensures s.name == Trim(input.name) && s.email == Trim(input.email) && s.phone == Trim(input.phone)
    ensures Some(s.department) == input.department
    ensures 0.0 <= s.marks <= 100.0 && parse(Trim(input.marks)) == Some(Finite(s.marks))
  {
    AcceptedMarksInRange(input, parse);
    ValidateFindsFirstInvalid(input, parse, OutOfRange);
    assert FieldValid(input, Name, parse, OutOfRange) && FieldValid(input, RollNo, parse, OutOfRange);
    assert FieldValid(input, Department, parse, OutOfRange);
    StudentRecord(0, Trim(input.name), Trim(input.rollNo), input.department.value,
      Trim(input.email), Trim(input.phone), parse(Trim(input.marks)).value.value)
  }
}
