/**
 * StatisticsPanel: the statistics tab. It shows the overview labels and renders the
 * department and grade distributions as rows of label, count and percentage.
 */
module StatisticsPanel {
  import opened Wrappers
  import opened JavaLang
  import GradeCalculator
  import opened StudentModel
  import opened Statistics

  // ---------------------------------------------------------------- rows

  /** One rendered row: a department or grade, its count, and its share of the total. */
  datatype StatRow = StatRow(key: string, count: int, percentage: real)

  /** `total > 0 ? (double) count / total * 100 : 0.0`, in exact arithmetic. */
  function Percentage(count: int, total: int): (p: real)
    ensures total <= 0 ==> p == 0.0
    ensures total > 0 ==> p * total as real == count as real * 100.0
    ensures total > 0 && 0 <= count <= total ==> 0.0 <= p <= 100.0
  {
    if total > 0 then count as real / total as real * 100.0 else 0.0
  }

  /** One row per map entry, in entry order, with percentages of `total`. */
  function EntryRows(d: Distribution, total: int): (rows: seq<StatRow>)
    ensures |rows| == |d|
    ensures forall i :: 0 <= i < |d| ==> rows[i] == StatRow(d[i].0, d[i].1, Percentage(d[i].1, total))
  {
    if d == [] then [] else [StatRow(d[0].0, d[0].1, Percentage(d[0].1, total))] + EntryRows(d[1..], total)
  }

  /** One row per key, in key order, counting `getOrDefault(key, 0)`. */
  function KeyRows(d: Distribution, keys: seq<string>, total: int): (rows: seq<StatRow>)
    ensures |rows| == |keys|
    ensures forall i :: 0 <= i < |keys| ==> rows[i] == StatRow(keys[i], Lookup(d, keys[i]), Percentage(Lookup(d, keys[i]), total))
  {
    if keys == [] then [] else [StatRow(keys[0], Lookup(d, keys[0]), Percentage(Lookup(d, keys[0]), total))] + KeyRows(d, keys[1..], total)
  }

  /** The rows updateDepartmentStats renders: the total is the sum of the map's values. */
  function DepartmentRows(departmentStats: Distribution): seq<StatRow> {
    EntryRows(departmentStats, Total(departmentStats))
  }

  /** The rows updateGradeStats renders: the six grades in order, whatever the map holds. */
  function GradeRows(gradeStats: Distribution): seq<StatRow> {
    KeyRows(gradeStats, GradeCalculator.GradeOrder, Total(gradeStats))
  }

  function SumCounts(rows: seq<StatRow>): int {
    if rows == [] then 0 else rows[0].count + SumCounts(rows[1..])
  }

  function SumPercentages(rows: seq<StatRow>): real {
    if rows == [] then 0.0 else rows[0].percentage + SumPercentages(rows[1..])
  }

  // ---------------------------------------------------------------- rendered text

  const DepartmentHeader: seq<string> := ["Department\t\tCount\tPercentage", "=========================================="]
  const GradeHeader: seq<string> := ["Grade\tCount\tPercentage", "========================"]

  /** "%-20s\t%d\t%.1f%%"; `fmt1` renders "%.1f". */
  function DepartmentLine(row: StatRow, fmt1: real -> string): string {
    PadRight(row.key, 20) + "\t" + IntToString(row.count) + "\t" + fmt1(row.percentage) + "%"
  }

  /** "%s\t%d\t%.1f%%". */
  function GradeLine(row: StatRow, fmt1: real -> string): string {
    row.key + "\t" + IntToString(row.count) + "\t" + fmt1(row.percentage) + "%"
  }

  /** The department rows, rendered. */
  function DepartmentLines(departmentStats: Distribution, fmt1: real -> string): seq<string> {
    var rows := DepartmentRows(departmentStats);
    seq(|rows|, i requires 0 <= i < |rows| => DepartmentLine(rows[i], fmt1))
  }

  /** The grade rows, rendered. */
  function GradeLines(gradeStats: Distribution, fmt1: real -> string): seq<string> {
    var rows := GradeRows(gradeStats);
    seq(|rows|, i requires 0 <= i < |rows| => GradeLine(rows[i], fmt1))
  }

  /** The department text area, line by line. */
  function DepartmentText(departmentStats: Distribution, fmt1: real -> string): seq<string> {
    DepartmentHeader + DepartmentLines(departmentStats, fmt1)
  }

  /** The grade text area, line by line. */
  function GradeText(gradeStats: Distribution, fmt1: real -> string): seq<string> {
    GradeHeader + GradeLines(gradeStats, fmt1)
  }

  // ---------------------------------------------------------------- properties of the rows

  /** Exactly six grade rows, A+ to F; a grade the map lacks is shown with count 0. */
  lemma {:induction false} GradeRowsInOrder(gradeStats: Distribution)
    ensures |GradeRows(gradeStats)| == 6
    ensures forall i :: 0 <= i < 6 ==> GradeRows(gradeStats)[i].key == GradeCalculator.GradeOrder[i]
    ensures forall i :: 0 <= i < 6 && GradeCalculator.GradeOrder[i] !in Keys(gradeStats) ==> GradeRows(gradeStats)[i].count == 0
  {
    forall i | 0 <= i < 6 && GradeCalculator.GradeOrder[i] !in Keys(gradeStats)
      ensures GradeRows(gradeStats)[i].count == 0
    {
      LookupAbsent(gradeStats, GradeCalculator.GradeOrder[i]);
    }
  }

  /** getOrDefault of a missing key is 0. */
  lemma {:induction false} LookupAbsent(d: Distribution, key: string)
    requires key !in Keys(d)
    ensures Lookup(d, key) == 0
  {
    if d != [] {
      assert Keys(d)[0] == d[0].0;
      assert Keys(d[1..]) == Keys(d)[1..];
      LookupAbsent(d[1..], key);
    }
  }

  /** One department row per map entry, in entry order. */
  lemma {:induction false} DepartmentRowsPerEntry(departmentStats: Distribution)
    ensures |DepartmentRows(departmentStats)| == |departmentStats|
    ensures forall i :: 0 <= i < |departmentStats| ==>
      DepartmentRows(departmentStats)[i].key == departmentStats[i].0 &&
      DepartmentRows(departmentStats)[i].count == departmentStats[i].1
  {
  }

  /** Percentages of a common positive total add up to the counts' share of it. */
  lemma {:induction false} PercentagesScale(rows: seq<StatRow>, total: int)
    requires total > 0
    requires forall i :: 0 <= i < |rows| ==> rows[i].percentage == Percentage(rows[i].count, total)
    ensures SumPercentages(rows) == SumCounts(rows) as real * (100.0 / total as real)
  {
    if rows != [] {
      PercentagesScale(rows[1..], total);
      ShareIsScaled(rows[0].count as real, total as real);
      Distribute(rows[0].count as real, SumCounts(rows[1..]) as real, 100.0 / total as real);
    }
  }

  lemma {:induction false} ShareIsScaled(c: real, t: real)
    requires t > 0.0
    ensures c / t * 100.0 == c * (100.0 / t)
  {
  }

  lemma {:induction false} Distribute(a: real, b: real, k: real)
    ensures (a + b) * k == a * k + b * k
  {
  }

  lemma {:induction false} EntryRowsCount(d: Distribution, total: int)
    ensures SumCounts(EntryRows(d, total)) == Total(d)
  {
    if d != [] {
      EntryRowsCount(d[1..], total);
      assert EntryRows(d, total)[1..] == EntryRows(d[1..], total);
    }
  }

  /** With a positive total, the department percentages add up to 100. */
  lemma {:induction false} DepartmentPercentagesSum(departmentStats: Distribution)
    requires Total(departmentStats) > 0
    ensures SumPercentages(DepartmentRows(departmentStats)) == 100.0
  {
    var total := Total(departmentStats);
    PercentagesScale(DepartmentRows(departmentStats), total);
    EntryRowsCount(departmentStats, total);
  }

  /** Sum of getOrDefault(key, 0) over `keys`. */
  function SumLookups(d: Distribution, keys: seq<string>): int {
    if keys == [] then 0 else Lookup(d, keys[0]) + SumLookups(d, keys[1..])
  }

  lemma {:induction false} KeyRowsCount(d: Distribution, keys: seq<string>, total: int)
    ensures SumCounts(KeyRows(d, keys, total)) == SumLookups(d, keys)
  {
    if keys != [] {
      KeyRowsCount(d, keys[1..], total);
      assert KeyRows(d, keys, total)[1..] == KeyRows(d, keys[1..], total);
    }
  }

  lemma {:induction false} SumLookupsEmpty(keys: seq<string>)
    ensures SumLookups([], keys) == 0
  {
    if keys != [] {
      SumLookupsEmpty(keys[1..]);
    }
  }

  /** Dropping the first entry takes its count out of the sum, once, when its key is listed. */
  lemma {:induction false} SumLookupsDropFirst(d: Distribution, keys: seq<string>)
    requires d != [] && d[0].0 !in Keys(d[1..])
    requires Distinct(keys)
    ensures SumLookups(d, keys) == SumLookups(d[1..], keys) + (if d[0].0 in keys then d[0].1 else 0)
  {
    if keys != [] {
      assert Distinct(keys[1..]) by {
        forall i, j | 0 <= i < j < |keys[1..]| ensures keys[1..][i] != keys[1..][j] {
          assert keys[1..][i] == keys[i + 1] && keys[1..][j] == keys[j + 1];
        }
      }
      SumLookupsDropFirst(d, keys[1..]);
      if keys[0] == d[0].0 {
        LookupAbsent(d[1..], d[0].0);
        assert d[0].0 !in keys[1..] by {
          forall j | 0 <= j < |keys[1..]| ensures keys[1..][j] != keys[0] {
            assert keys[1..][j] == keys[j + 1];
          }
        }
      } else {
        assert d[0].0 in keys <==> d[0].0 in keys[1..];
      }
    }
  }

  /** When the keys are distinct and all listed, summing getOrDefault over the list gives the map's total. */
  lemma {:induction false} SumLookupsTotal(d: Distribution, keys: seq<string>)
    requires Distinct(Keys(d)) && Distinct(keys)
    requires forall i :: 0 <= i < |d| ==> d[i].0 in keys
    ensures SumLookups(d, keys) == Total(d)
  {
    if d == [] {
      SumLookupsEmpty(keys);
    } else {
      var rest := d[1..];
      assert Keys(rest) == Keys(d)[1..];
      assert Distinct(Keys(rest)) by {
        forall i, j | 0 <= i < j < |Keys(rest)| ensures Keys(rest)[i] != Keys(rest)[j] {
          assert Keys(rest)[i] == Keys(d)[i + 1] && Keys(rest)[j] == Keys(d)[j + 1];
        }
      }
      assert d[0].0 !in Keys(rest) by {
        forall j | 0 <= j < |Keys(rest)| ensures Keys(rest)[j] != d[0].0 {
          assert Keys(rest)[j] == Keys(d)[j + 1] && Keys(d)[0] == d[0].0;
        }
      }
      forall i | 0 <= i < |rest| ensures rest[i].0 in keys {
        assert rest[i] == d[i + 1];
      }
      SumLookupsTotal(rest, keys);
      SumLookupsDropFirst(d, keys);
    }
  }

  lemma {:induction false} GradeOrderDistinct()
    ensures Distinct(GradeCalculator.GradeOrder)
  {
  }

  /**
   * With a positive total and every key one of the six grades (each once), the grade
   * percentages add up to 100.
   */
  lemma {:induction false} GradePercentagesSum(gradeStats: Distribution)
    requires Total(gradeStats) > 0
    requires Distinct(Keys(gradeStats))
    requires forall i :: 0 <= i < |gradeStats| ==> gradeStats[i].0 in GradeCalculator.GradeOrder
    ensures SumPercentages(GradeRows(gradeStats)) == 100.0
  {
    var total := Total(gradeStats);
    var rows := GradeRows(gradeStats);
    PercentagesScale(rows, total);
    assert SumCounts(rows) == total by {
      KeyRowsCount(gradeStats, GradeCalculator.GradeOrder, total);
      GradeOrderDistinct();
      SumLookupsTotal(gradeStats, GradeCalculator.GradeOrder);
    }
    WholeShare(total as real);
  }

  lemma {:induction false} WholeShare(t: real)
    requires t > 0.0
    ensures t * (100.0 / t) == 100.0
  {
  }

  /** Fed from a non-empty roster, the department renderer's total is the number of students and its percentages add up to 100. */
  lemma {:induction false} RosterDepartmentPercentages(students: seq<StudentRecord>)
    requires students != []
    ensures Total(CountBy(Departments(students))) == |students|
    ensures SumPercentages(DepartmentRows(CountBy(Departments(students)))) == 100.0
  {
    DepartmentDistribution(students);
    DepartmentPercentagesSum(CountBy(Departments(students)));
  }

  /** Fed from a non-empty roster, the grade renderer's total is the number of students and its percentages add up to 100. */
  lemma {:induction false} RosterGradePercentages(students: seq<StudentRecord>)
    requires students != []
    ensures Total(CountBy(Grades(students))) == |students|
    ensures SumPercentages(GradeRows(CountBy(Grades(students)))) == 100.0
  {
    GradeDistribution(students);
    GradePercentagesSum(CountBy(Grades(students)));
  }

  // ---------------------------------------------------------------- the panel

  /** The overview labels loadStatistics sets; `fmt1`/`fmt2` render "%.1f"/"%.2f". */
  function OverviewLabels(st: Statistics, fmt1: real -> string, fmt2: real -> string): seq<string>
    requires st.Consistent()
  {
    ["Total Students: " + IntToString(st.totalStudents),
     "Passed: " + IntToString(st.passedStudents) + " (" + fmt1(st.PassPercentage()) + "%)",
     "Failed: " + IntToString(st.failedStudents) + " (" + fmt1(st.FailPercentage()) + "%)",
     "Average Marks: " + fmt2(st.averageMarks),
     "Highest Marks: " + fmt2(st.highestMarks),
     "Lowest Marks: " + fmt2(st.lowestMarks)]
  }

  /** What escapes loadStatistics when it dereferences a distribution left null. */
  const NullDistribution := "NullPointerException"

  class StatisticsPanel {
    /** Total, passed, failed, average, highest and lowest labels, in that order. */
    var overview: seq<string>
    /** The two text areas, line by line. */
    var departmentLines: seq<string>
    var gradeLines: seq<string>
    /** The error dialogs shown so far, oldest first. */
    var errors: seq<string>

    constructor()
      ensures overview == [] && departmentLines == [] && gradeLines == [] && errors == []
    {
      overview, departmentLines, gradeLines, errors := [], [], [], [];
    }

    /** StatisticsPanel.updateDepartmentStats: the header, then one line per entry in map order. */
    method UpdateDepartmentStats(departmentStats: Distribution, fmt1: real -> string)
      modifies this`departmentLines
      ensures departmentLines == DepartmentText(departmentStats, fmt1)
    {
      var total := Total(departmentStats);
      ghost var expected := DepartmentLines(departmentStats, fmt1);
      var lines := [];
      for i := 0 to |departmentStats|
        invariant lines == expected[..i]
      {
        var entry := departmentStats[i];
        var percentage := Percentage(entry.1, total);
        PrefixStep(expected, i);
        lines := lines + [DepartmentLine(StatRow(entry.0, entry.1, percentage), fmt1)];
      }
      assert expected[..|departmentStats|] == expected;
      departmentLines := DepartmentHeader + lines;
    }

    /** StatisticsPanel.updateGradeStats: the header, then a line per grade from A+ to F. */
    method UpdateGradeStats(gradeStats: Distribution, fmt1: real -> string)
      modifies this`gradeLines
      ensures gradeLines == GradeText(gradeStats, fmt1)
    {
      var total := Total(gradeStats);
      var gradeOrder := GradeCalculator.GradeOrder;
      ghost var expected := GradeLines(gradeStats, fmt1);
      var lines := [];
      for i := 0 to |gradeOrder|
        invariant lines == expected[..i]
      {
        var grade := gradeOrder[i];
        var count := Lookup(gradeStats, grade);
        var percentage := Percentage(count, total);
        PrefixStep(expected, i);
        lines := lines + [GradeLine(StatRow(grade, count, percentage), fmt1)];
      }
      assert expected[..|gradeOrder|] == expected;
      gradeLines := GradeHeader + lines;
    }

    /**
     * The part of loadStatistics after the statistics are computed: the overview labels,
     * then the two text areas. A distribution left null makes the renderer fail, after the
     * labels were set.
     */
    method Render(stats: Statistics, fmt1: real -> string, fmt2: real -> string) returns (outcome: Result<()>)
      requires stats.Consistent()
      requires stats.departmentStats.None? <==> stats.gradeStats.None?
      modifies this`overview, this`departmentLines, this`gradeLines
      ensures overview == OverviewLabels(stats, fmt1, fmt2)
      ensures stats.departmentStats.None? ==>
        outcome == Err(NullDistribution) && departmentLines == old(departmentLines) && gradeLines == old(gradeLines)
      ensures stats.departmentStats.Some? ==>
        outcome == Ok(()) &&
        departmentLines == DepartmentText(stats.departmentStats.value, fmt1) &&
        gradeLines == GradeText(stats.gradeStats.value, fmt1)
    {
      overview := OverviewLabels(stats, fmt1, fmt2);
      if stats.departmentStats.None? {
        return Err(NullDistribution);
      }
      UpdateDepartmentStats(stats.departmentStats.value, fmt1);
      if stats.gradeStats.None? {
        return Err(NullDistribution);
      }
      UpdateGradeStats(stats.gradeStats.value, fmt1);
      return Ok(());
    }

    /**
     * StatisticsPanel.loadStatistics: the statistics of the stored roster are shown; for an
     * empty roster the distributions are null and rendering fails; a store failure shows an
     * error dialog and changes nothing else.
     */
    method LoadStatistics(roster: Result<seq<StudentRecord>>, fmt1: real -> string, fmt2: real -> string)
      returns (outcome: Result<()>)
      modifies this`overview, this`departmentLines, this`gradeLines, this`errors
      ensures roster.Err? ==>
        outcome == Ok(()) && errors == old(errors) + ["Error loading statistics: " + roster.message] &&
        overview == old(overview) && departmentLines == old(departmentLines) && gradeLines == old(gradeLines)
      ensures roster.Ok? ==> errors == old(errors) && overview == OverviewLabels(Compute(roster.value), fmt1, fmt2)
      ensures roster.Ok? && roster.value == [] ==>
        outcome == Err(NullDistribution) && departmentLines == old(departmentLines) && gradeLines == old(gradeLines)
      ensures roster.Ok? && roster.value != [] ==>
        outcome == Ok(()) &&
        departmentLines == DepartmentText(Compute(roster.value).departmentStats.value, fmt1) &&
        gradeLines == GradeText(Compute(roster.value).gradeStats.value, fmt1)
    {
      if roster.Err? {
        errors := errors + ["Error loading statistics: " + roster.message];
        return Ok(());
      }
      var stats := Compute(roster.value);
      outcome := Render(stats, fmt1, fmt2);
    }
  }
}
