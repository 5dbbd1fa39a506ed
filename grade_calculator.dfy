/**
 * The grade engine: one threshold table, read highest band first, gives the letter grade,
 * the GPA point and the pass/fail verdict of a marks value.
 */
module GradeCalculator {

  /** Letter grades, best first; also the order in which grade rows are rendered. */
  const GradeOrder: seq<string> := ["A+", "A", "B", "C", "D", "F"]

  /** Lower bounds of the bands A+ .. D, highest first; anything below the last one is F. */
  const Thresholds: seq<real> := [90.0, 80.0, 70.0, 60.0, 50.0]

  /** GPA points of the bands A+ .. F. */
  const GradePoints: seq<real> := [4.0, 3.5, 3.0, 2.5, 2.0, 0.0]

  const PassMark: real := 50.0

  /**
   * The table read from row `i` on: the first row whose threshold the marks reach, or
   * |Thresholds| (the F row) when none does. "First match wins" stated as a search.
   */
  function FirstBandFrom(marks: real, i: nat): (b: nat)
    requires i <= |Thresholds|
    ensures i <= b <= |Thresholds|
    ensures forall k :: i <= k < b ==> marks < Thresholds[k]
    ensures b < |Thresholds| ==> marks >= Thresholds[b]
    decreases |Thresholds| - i
  {
    if i == |Thresholds| || marks >= Thresholds[i] then i else FirstBandFrom(marks, i + 1)
  }

  /** The row of the table that applies to `marks`: 0 for A+ .. 5 for F. */
  function Band(marks: real): (b: nat)
    ensures b < |GradeOrder|
  {
    FirstBandFrom(marks, 0)
  }

  /** GradeCalculator.calculateGrade. */
  function CalculateGrade(marks: real): (g: string)
    ensures g == GradeOrder[Band(marks)]
    ensures g == "A+" <==> marks >= 90.0
    ensures g == "A" <==> 80.0 <= marks < 90.0
    ensures g == "B" <==> 70.0 <= marks < 80.0
    ensures g == "C" <==> 60.0 <= marks < 70.0
    ensures g == "D" <==> 50.0 <= marks < 60.0
    ensures g == "F" <==> marks < 50.0
  {
    if marks >= 90.0 then "A+"
    else if marks >= 80.0 then "A"
    else if marks >= 70.0 then "B"
    else if marks >= 60.0 then "C"
    else if marks >= 50.0 then "D"
    else "F"
  }

  /** GradeCalculator.isPassed. */
  function IsPassed(marks: real): (passed: bool)
    ensures passed <==> Band(marks) < |Thresholds|
  {
    marks >= PassMark
  }

  /** GradeCalculator.calculateGPA. */
  function CalculateGPA(marks: real): (gpa: real)
    ensures gpa == GradePoints[Band(marks)]
    ensures 0.0 <= gpa <= 4.0
  {
    if marks >= 90.0 then 4.0
    else if marks >= 80.0 then 3.5
    else if marks >= 70.0 then 3.0
    else if marks >= 60.0 then 2.5
    else if marks >= 50.0 then 2.0
    else 0.0
  }

  /** Passing, a grade other than F and a positive GPA are the same condition. */
  lemma {:induction false} PassedIffNotFailing(marks: real)
    ensures IsPassed(marks) <==> marks >= 50.0
    ensures IsPassed(marks) <==> CalculateGrade(marks) != "F"
    ensures IsPassed(marks) <==> CalculateGPA(marks) > 0.0
  {
  }

  /** Higher marks never give a worse band. */
  lemma {:induction false} BandAntitone(m1: real, m2: real, i: nat)
    requires i <= |Thresholds|
    requires m1 <= m2
    ensures FirstBandFrom(m2, i) <= FirstBandFrom(m1, i)
    decreases |Thresholds| - i
  {
    if i < |Thresholds| && m1 < Thresholds[i] && m2 < Thresholds[i] {
      BandAntitone(m1, m2, i + 1);
    }
  }

  /** The GPA is non-decreasing in the marks. */
  lemma {:induction false} GpaMonotone(m1: real, m2: real)
    requires m1 <= m2
    ensures CalculateGPA(m1) <= CalculateGPA(m2)
  {
    BandAntitone(m1, m2, 0);
  }

  /** The GPA depends on the marks only through the letter grade. */
  lemma {:induction false} GpaFollowsGrade(m1: real, m2: real)
    requires CalculateGrade(m1) == CalculateGrade(m2)
    ensures CalculateGPA(m1) == CalculateGPA(m2)
  {
  }
}
