/**
 * The Student entity. `StudentRecord` is the value of a student at one moment (what the
 * statistics, exports and table consume); `Student` is the mutable object with its setters,
 * its derived grade and pass flag, and its roll-number identity.
 */
module StudentModel {
  import GradeCalculator
  import JavaLang

  /** The fields of a student at one moment. `id` is 0 until the store assigns one. */
  datatype StudentRecord = StudentRecord(
    id: int,
    name: string,
    rollNo: string,
    department: string,
    email: string,
    phone: string,
    marks: real)
  {
    /** The letter grade of these marks (Student.getGrade). */
    function Grade(): string {
      GradeCalculator.CalculateGrade(marks)
    }

    /** Whether these marks pass (Student.isPassed). */
    predicate Passed() {
      GradeCalculator.IsPassed(marks)
    }

    /** "Pass" or "Fail", as every report prints the verdict. */
    function StatusText(): (t: string)
      ensures t == "Pass" <==> marks >= 50.0
      ensures t == "Fail" <==> marks < 50.0
    {
      if Passed() then "Pass" else "Fail"
    }
  }

  class Student {
    var id: int
    var name: string
    var rollNo: string
    var department: string
    var email: string
    var phone: string
    var marks: real

    /** The student's current field values. */
    function Record(): StudentRecord
      reads this
    {
      StudentRecord(id, name, rollNo, department, email, phone, marks)
    }

    /** Student(): every field at its default. */
    constructor Empty()
      ensures Record() == StudentRecord(0, "", "", "", "", "", 0.0)
    {
      id, name, rollNo, department, email, phone, marks := 0, "", "", "", "", "", 0.0;
    }

    /** Student(name, rollNo, department, email, phone, marks): a record not yet stored. */
    constructor New(name: string, rollNo: string, department: string, email: string, phone: string, marks: real)
      ensures Record() == StudentRecord(0, name, rollNo, department, email, phone, marks)
    {
      this.id := 0;
      this.name, this.rollNo, this.department := name, rollNo, department;
      this.email, this.phone, this.marks := email, phone, marks;
    }

    /** Student(id, name, rollNo, department, email, phone, marks): a stored record. */
    constructor WithId(id: int, name: string, rollNo: string, department: string, email: string, phone: string, marks: real)
      ensures Record() == StudentRecord(id, name, rollNo, department, email, phone, marks)
    {
      this.id := id;
      this.name, this.rollNo, this.department := name, rollNo, department;
      this.email, this.phone, this.marks := email, phone, marks;
    }

    method SetId(id: int)
      modifies this
      ensures Record() == old(Record()).(id := id)
    {
      this.id := id;
    }

    method SetName(name: string)
      modifies this
      ensures Record() == old(Record()).(name := name)
    {
      this.name := name;
    }

    method SetRollNo(rollNo: string)
      modifies this
      ensures Record() == old(Record()).(rollNo := rollNo)
    {
      this.rollNo := rollNo;
    }

    method SetDepartment(department: string)
      modifies this
      ensures Record() == old(Record()).(department := department)
    {
      this.department := department;
    }

    method SetEmail(email: string)
      modifies this
      ensures Record() == old(Record()).(email := email)
    {
      this.email := email;
    }

    method SetPhone(phone: string)
      modifies this
      ensures Record() == old(Record()).(phone := phone)
    {
      this.phone := phone;
    }

    /** After this call the grade and the pass flag follow the new marks. */
    method SetMarks(marks: real)
      modifies this
      ensures Record() == old(Record()).(marks := marks)
      ensures GetGrade() == GradeCalculator.CalculateGrade(marks)
      ensures IsPassed() <==> marks >= 50.0
    {
      this.marks := marks;
    }

    /** Student.getGrade: its own copy of the threshold chain, which agrees with the engine. */
    function GetGrade(): (g: string)
      reads this
      ensures g == GradeCalculator.CalculateGrade(marks)
    {
      if marks >= 90.0 then "A+"
      else if marks >= 80.0 then "A"
      else if marks >= 70.0 then "B"
      else if marks >= 60.0 then "C"
      else if marks >= 50.0 then "D"
      else "F"
    }

    /** Student.isPassed. */
    predicate IsPassed()
      reads this
      ensures IsPassed() <==> GradeCalculator.IsPassed(marks)
      ensures IsPassed() <==> GetGrade() != "F"
    {
      marks >= 50.0
    }

    /** Student.equals: the same object, or another Student with the same roll number. */
    predicate Equals(obj: object?)
      reads this, obj
    {
      if obj == this then true
      else if obj == null || !(obj is Student) then false
      else rollNo == (obj as Student).rollNo
    }

    /** Student.hashCode: the hash of the roll number. */
    function HashCode(): int
      reads this
    {
      JavaLang.StringHash(rollNo)
    }
  }

  /** Two students are equal exactly when their roll numbers are, whatever their other fields. */
  lemma {:induction false} EqualsIffSameRollNo(a: Student, b: Student)
    ensures a.Equals(b) <==> a.rollNo == b.rollNo
  {
  }

  /** Nothing is equal to null, and nothing but a Student is equal to a Student. */
  lemma {:induction false} EqualsRejectsOthers(a: Student, obj: object?)
    requires obj == null || !(obj is Student)
    ensures !a.Equals(obj)
  {
  }

  /** Equal students hash alike, so Student is usable as a hash key. */
  lemma {:induction false} EqualsImpliesSameHash(a: Student, b: Student)
    requires a.Equals(b)
    ensures a.HashCode() == b.HashCode()
  {
  }
}
