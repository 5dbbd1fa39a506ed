/**
 * The student store the windows talk to. Its SQL is not part of this model: a search is a
 * `Query` value whose answer is supplied from outside, and the store the form writes to is
 * a map from roll number to record that may be unavailable (every call then fails with the
 * driver's message, as an SQLException would).
 */
module StudentDao {
  import opened Wrappers
  import opened JavaLang
  import opened StudentModel

  /** The store calls the main window makes to fill its table. */
  datatype Query =
    | AllStudents
    | ByName(name: string)
    | ByRollNo(rollNo: string)
    | ByDepartment(department: string)
    | ByMarksRange(min: JavaDouble, max: JavaDouble)

  /** The answers of a store to each query: the list found, or the exception's message. */
  type Answers = Query -> Result<seq<StudentRecord>>

  /** The failure an insert reports for a roll number already stored. */
  function DuplicateKey(rollNo: string): string {
    "Duplicate entry '" + rollNo + "' for roll number"
  }

  class StudentStore {
    /** The stored students, by roll number. */
    var records: map<string, StudentRecord>
    /** Some(message) while the database cannot be reached. */
    var failure: Option<string>

    constructor(records: map<string, StudentRecord>, failure: Option<string>)
      ensures this.records == records && this.failure == failure
    {
      this.records := records;
      this.failure := failure;
    }

    /** StudentDAO.isRollNoExists. */
    method IsRollNoExists(rollNo: string) returns (r: Result<bool>)
      ensures failure.Some? ==> r == Err(failure.value)
      ensures failure.None? ==> r == Ok(rollNo in records)
    {
      if failure.Some? {
        r := Err(failure.value);
      } else {
        r := Ok(rollNo in records);
      }
    }

    /**
     * StudentDAO.insertStudent: the student is stored under its roll number. The roll-number
     * key is unique, so a roll number already stored fails the insert and changes nothing.
     */
    method InsertStudent(s: StudentRecord) returns (r: Result<()>)
      modifies this
      ensures failure == old(failure)
      ensures old(failure).Some? ==> r == Err(old(failure).value) && records == old(records)
      ensures old(failure).None? && s.rollNo in old(records) ==> r == Err(DuplicateKey(s.rollNo)) && records == old(records)
      ensures old(failure).None? && s.rollNo !in old(records) ==> r == Ok(()) && records == old(records)[s.rollNo := s]
    {
      if failure.Some? {
        r := Err(failure.value);
      } else if s.rollNo in records {
        r := Err(DuplicateKey(s.rollNo));
      } else {
        records := records[s.rollNo := s];
        r := Ok(());
      }
    }

    /** StudentDAO.updateStudent: the record stored under `rollNo`, if any, is replaced by `s`. */
    method UpdateStudent(rollNo: string, s: StudentRecord) returns (r: Result<()>)
      modifies this
      ensures failure == old(failure)
      ensures old(failure).Some? ==> r == Err(old(failure).value) && records == old(records)
      ensures old(failure).None? ==> r == Ok(())
      ensures old(failure).None? && rollNo in old(records) ==> records == old(records)[rollNo := s]
      ensures old(failure).None? && rollNo !in old(records) ==> records == old(records)
    {
      if failure.Some? {
        r := Err(failure.value);
      } else {
        if rollNo in records {
          records := records[rollNo := s];
        }
        r := Ok(());
      }
    }
  }
}
