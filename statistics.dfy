/**
 * GradeCalculator.Statistics: a write-once summary of a list of students, built here by
 * functions over the list (the source fills it with stream pipelines in its constructor).
 */
module Statistics {
  import opened Wrappers
  import JavaLang
  import GradeCalculator
  import opened StudentModel

  // ---------------------------------------------------------------- per-student folds

  /** Number of students who pass (stream().filter(Student::isPassed).count()). */
  function PassedCount(students: seq<StudentRecord>): (n: nat)
    ensures n <= |students|
  {
    if students == [] then 0
    else PassedCount(students[..|students| - 1]) + (if students[|students| - 1].Passed() then 1 else 0)
  }

  /** Number of students who fail (stream().filter(s -> !s.isPassed()).count()). */
  function FailedCount(students: seq<StudentRecord>): nat {
    if students == [] then 0
    else FailedCount(students[..|students| - 1]) + (if students[|students| - 1].Passed() then 0 else 1)
  }

  /** Every student either passes or fails. */
  lemma {:induction false} PassedAndFailedPartition(students: seq<StudentRecord>)
    ensures PassedCount(students) + FailedCount(students) == |students|
  {
    if students != [] {
      PassedAndFailedPartition(students[..|students| - 1]);
    }
  }

  /** The marks of the students, in list order. */
  function Marks(students: seq<StudentRecord>): (m: seq<real>)
    ensures |m| == |students| && forall i :: 0 <= i < |m| ==> m[i] == students[i].marks
  {
    if students == [] then [] else Marks(students[..|students| - 1]) + [students[|students| - 1].marks]
  }

  function Sum(xs: seq<real>): real {
    if xs == [] then 0.0 else Sum(xs[..|xs| - 1]) + xs[|xs| - 1]
  }

  /** The largest value (DoubleStream.max on a non-empty stream). */
  function Max(xs: seq<real>): (m: real)
    requires xs != []
    ensures m in xs
    ensures forall i :: 0 <= i < |xs| ==> xs[i] <= m
  {
    if |xs| == 1 then xs[0]
    else
      var m := Max(xs[..|xs| - 1]);
      assert forall x :: x in xs[..|xs| - 1] ==> x in xs;
      if xs[|xs| - 1] > m then xs[|xs| - 1] else m
  }

  /** The smallest value (DoubleStream.min on a non-empty stream). */
  function Min(xs: seq<real>): (m: real)
    requires xs != []
    ensures m in xs
    ensures forall i :: 0 <= i < |xs| ==> m <= xs[i]
  {
    if |xs| == 1 then xs[0]
    else
      var m := Min(xs[..|xs| - 1]);
      assert forall x :: x in xs[..|xs| - 1] ==> x in xs;
      if xs[|xs| - 1] < m then xs[|xs| - 1] else m
  }

  /** The sum lies between |xs| times the smallest and |xs| times the largest bound. */
  lemma {:induction false} SumBetween(xs: seq<real>, lo: real, hi: real)
    requires forall i :: 0 <= i < |xs| ==> lo <= xs[i] <= hi
    ensures |xs| as real * lo <= Sum(xs) <= |xs| as real * hi
  {
    if xs != [] {
      SumBetween(xs[..|xs| - 1], lo, hi);
      assert |xs| as real * lo == (|xs| - 1) as real * lo + lo;
      assert |xs| as real * hi == (|xs| - 1) as real * hi + hi;
    }
  }

  /** The exact arithmetic mean (DoubleStream.average, without rounding). */
  function Average(xs: seq<real>): real
    requires xs != []
  {
    Sum(xs) / |xs| as real
  }

  /** The mean lies between the minimum and the maximum. */
  lemma {:induction false} AverageBetweenExtrema(xs: seq<real>)
    requires xs != []
    ensures Min(xs) <= Average(xs) <= Max(xs)
  {
    var n, lo, hi, s := |xs| as real, Min(xs), Max(xs), Sum(xs);
    SumBetween(xs, lo, hi);
    DivideBounds(s, n, lo, hi);
  }

  lemma {:induction false} DivideBounds(s: real, n: real, lo: real, hi: real)
    requires n > 0.0 && n * lo <= s <= n * hi
    ensures lo <= s / n <= hi
  {
    assert s / n * n == s;
  }

  /** A share of a positive total, as a percentage, scales back to the count. */
  lemma {:induction false} ShareTimesTotal(c: real, t: real)
    requires t > 0.0
    ensures c / t * 100.0 * t == c * 100.0
  {
    assert c / t * t == c;
  }

  // ---------------------------------------------------------------- distributions

  /**
   * A Map<String, Long> of counts, as (key, count) entries; the entries are kept in
   * first-seen order, standing for the map's iteration order.
   */
  type Distribution = seq<(string, int)>

  /** The keys of the map, in entry order. */
  function Keys(d: Distribution): (ks: seq<string>)
    ensures |ks| == |d| && forall i :: 0 <= i < |d| ==> ks[i] == d[i].0
  {
    if d == [] then [] else [d[0].0] + Keys(d[1..])
  }

  /** Map.getOrDefault(key, 0). */
  function Lookup(d: Distribution, key: string): int {
    if d == [] then 0 else if d[0].0 == key then d[0].1 else Lookup(d[1..], key)
  }

  /** Sum of the map's values. */
  function Total(d: Distribution): int {
    if d == [] then 0 else d[0].1 + Total(d[1..])
  }

  /** Number of times `key` occurs in `keys`. */
  function Occurrences(keys: seq<string>, key: string): nat {
    if keys == [] then 0
    else Occurrences(keys[..|keys| - 1], key) + (if keys[|keys| - 1] == key then 1 else 0)
  }

  /** The values of `keys` without repeats, each at its first occurrence. */
  function FirstSeen(keys: seq<string>): (u: seq<string>)
    ensures JavaLang.Distinct(u)
    ensures forall k :: k in u <==> k in keys
  {
    if keys == [] then []
    else
      var init := keys[..|keys| - 1];
      var u := FirstSeen(init);
      assert keys == init + [keys[|keys| - 1]];
      if keys[|keys| - 1] in u then u else u + [keys[|keys| - 1]]
  }

  /** One more occurrence of `key`: its count goes up by one, or it is appended with count 1. */
  function AddOne(d: Distribution, key: string): Distribution {
    if d == [] then [(key, 1)]
    else if d[0].0 == key then [(key, d[0].1 + 1)] + d[1..]
    else [d[0]] + AddOne(d[1..], key)
  }

  /** groupingBy(classifier, counting()) over the classified keys. */
  function CountBy(keys: seq<string>): Distribution {
    if keys == [] then [] else AddOne(CountBy(keys[..|keys| - 1]), keys[|keys| - 1])
  }

  lemma {:induction false} AddOneKeys(d: Distribution, key: string)
    ensures Keys(AddOne(d, key)) == if key in Keys(d) then Keys(d) else Keys(d) + [key]
  {
    if d != [] && d[0].0 != key {
      AddOneKeys(d[1..], key);
      assert Keys(d) == [d[0].0] + Keys(d[1..]);
      assert key in Keys(d) <==> key in Keys(d[1..]);
    }
  }

  lemma {:induction false} AddOneTotal(d: Distribution, key: string)
    ensures Total(AddOne(d, key)) == Total(d) + 1
  {
    if d != [] && d[0].0 != key {
      AddOneTotal(d[1..], key);
    }
  }

  lemma {:induction false} AddOneLookup(d: Distribution, key: string, k: string)
    ensures Lookup(AddOne(d, key), k) == Lookup(d, k) + (if k == key then 1 else 0)
  {
    if d != [] && d[0].0 != key {
      AddOneLookup(d[1..], key, k);
    }
  }

  lemma {:induction false} AddOnePositive(d: Distribution, key: string)
    requires forall i :: 0 <= i < |d| ==> d[i].1 >= 1
    ensures forall i :: 0 <= i < |AddOne(d, key)| ==> AddOne(d, key)[i].1 >= 1
  {
    if d != [] && d[0].0 != key {
      AddOnePositive(d[1..], key);
    }
  }

  /**
   * The counting is exact and well formed: the keys are the values seen, without repeats
   * and in first-seen order; each is counted once per occurrence; every count is at least
   * one; and the counts sum to the number of values.
   */
  lemma {:induction false} CountByFacts(keys: seq<string>)
    ensures Keys(CountBy(keys)) == FirstSeen(keys)
    ensures forall k :: Lookup(CountBy(keys), k) == Occurrences(keys, k)
    ensures forall i :: 0 <= i < |CountBy(keys)| ==> CountBy(keys)[i].1 >= 1
    ensures Total(CountBy(keys)) == |keys|
  {
    if keys != [] {
      var init := keys[..|keys| - 1];
      var last := keys[|keys| - 1];
      CountByFacts(init);
      AddOneKeys(CountBy(init), last);
      AddOneTotal(CountBy(init), last);
      AddOnePositive(CountBy(init), last);
      forall k ensures Lookup(CountBy(keys), k) == Occurrences(keys, k) {
        AddOneLookup(CountBy(init), last, k);
      }
    }
  }

  // ---------------------------------------------------------------- the summary

  datatype Statistics = Statistics(
    totalStudents: int,
    passedStudents: int,
    failedStudents: int,
    averageMarks: real,
    highestMarks: real,
    lowestMarks: real,
    departmentStats: Option<Distribution>,   // None: left null for an empty list
    gradeStats: Option<Distribution>)
  {
    /** What the constructor guarantees about the counts. */
    predicate Consistent() {
      0 <= passedStudents <= totalStudents && failedStudents == totalStudents - passedStudents
    }

    /** getPassPercentage. */
    function PassPercentage(): (p: real)
      requires Consistent()
      ensures totalStudents == 0 ==> p == 0.0
      ensures totalStudents > 0 ==> p * totalStudents as real == passedStudents as real * 100.0
      ensures 0.0 <= p <= 100.0
    {
      if totalStudents > 0 then
        ShareTimesTotal(passedStudents as real, totalStudents as real);
        passedStudents as real / totalStudents as real * 100.0
      else 0.0
    }

    /** getFailPercentage. */
    function FailPercentage(): (p: real)
      requires Consistent()
      ensures totalStudents == 0 ==> p == 0.0
      ensures totalStudents > 0 ==> p * totalStudents as real == failedStudents as real * 100.0
      ensures 0.0 <= p <= 100.0
    {
      if totalStudents > 0 then
        ShareTimesTotal(failedStudents as real, totalStudents as real);
        failedStudents as real / totalStudents as real * 100.0
      else 0.0
    }
  }

  /** Departments of the students, in list order. */
  function Departments(students: seq<StudentRecord>): (ds: seq<string>)
    ensures |ds| == |students| && forall i :: 0 <= i < |ds| ==> ds[i] == students[i].department
  {
    if students == [] then [] else Departments(students[..|students| - 1]) + [students[|students| - 1].department]
  }

  /** Grades of the students, in list order. */
  function Grades(students: seq<StudentRecord>): (gs: seq<string>)
    ensures |gs| == |students| && forall i :: 0 <= i < |gs| ==> gs[i] == students[i].Grade()
  {
    if students == [] then [] else Grades(students[..|students| - 1]) + [students[|students| - 1].Grade()]
  }

  /** new Statistics(students). */
  function Compute(students: seq<StudentRecord>): (st: Statistics)
    ensures st.Consistent()
    ensures st.totalStudents == |students|
    ensures st.passedStudents == PassedCount(students)
    ensures st.passedStudents + st.failedStudents == st.totalStudents
    ensures students == [] ==> st.averageMarks == 0.0 && st.highestMarks == 0.0 && st.lowestMarks == 0.0
    ensures st.departmentStats.None? <==> students == []
    ensures st.gradeStats.None? <==> students == []
  {
    var total := |students|;
    var passed := PassedCount(students);
    if students == [] then
      Statistics(total, passed, total - passed, 0.0, 0.0, 0.0, None, None)
    else
      var m := Marks(students);
      Statistics(total, passed, total - passed, Average(m), Max(m), Min(m),
                 Some(CountBy(Departments(students))), Some(CountBy(Grades(students))))
  }

  /** For a non-empty list, highest and lowest are marks that occur, bound all the others, and bracket the average. */
  lemma {:induction false} Extrema(students: seq<StudentRecord>)
    requires students != []
    ensures var st := Compute(students);
      (exists i :: 0 <= i < |students| && students[i].marks == st.highestMarks) &&
      (exists i :: 0 <= i < |students| && students[i].marks == st.lowestMarks) &&
      (forall i :: 0 <= i < |students| ==> st.lowestMarks <= students[i].marks <= st.highestMarks) &&
      st.lowestMarks <= st.averageMarks <= st.highestMarks
  {
    var m := Marks(students);
    ComputeMarks(students);
    AverageBetweenExtrema(m);
    var i :| 0 <= i < |m| && m[i] == Max(m);
    var j :| 0 <= j < |m| && m[j] == Min(m);
    assert students[i].marks == m[i] && students[j].marks == m[j];
    forall k | 0 <= k < |students| ensures Min(m) <= students[k].marks <= Max(m) {
      assert students[k].marks == m[k];
    }
  }

  /** For a non-empty list the marks figures are the average, maximum and minimum of the marks. */
  lemma {:induction false} ComputeMarks(students: seq<StudentRecord>)
    requires students != []
    ensures Compute(students).averageMarks == Average(Marks(students))
    ensures Compute(students).highestMarks == Max(Marks(students))
    ensures Compute(students).lowestMarks == Min(Marks(students))
  {
  }

  /** For a non-empty list the two distributions are the counts of departments and of grades. */
  lemma {:induction false} DistributionsOfNonEmpty(students: seq<StudentRecord>)
    requires students != []
    ensures Compute(students).departmentStats == Some(CountBy(Departments(students)))
    ensures Compute(students).gradeStats == Some(CountBy(Grades(students)))
  {
  }

  /** Department counts: one entry per department seen, each at least one, summing to the total. */
  lemma {:induction false} DepartmentDistribution(students: seq<StudentRecord>)
    ensures var d := CountBy(Departments(students));
      JavaLang.Distinct(Keys(d)) &&
      (forall dept :: dept in Keys(d) <==> exists i :: 0 <= i < |students| && students[i].department == dept) &&
      (forall i :: 0 <= i < |d| ==> d[i].1 >= 1) &&
      (forall dept :: Lookup(d, dept) == Occurrences(Departments(students), dept)) &&
      Total(d) == |students|
  {
    var ds := Departments(students);
    CountByFacts(ds);
    forall dept ensures dept in ds <==> exists i :: 0 <= i < |students| && students[i].department == dept {
      if dept in ds {
        var i :| 0 <= i < |ds| && ds[i] == dept;
        assert students[i].department == dept;
      }
    }
  }

  /** Grade counts: keys drawn from the six grades, summing to the total; F counts the failures. */
  lemma {:induction false} GradeDistribution(students: seq<StudentRecord>)
    ensures var g := CountBy(Grades(students));
      JavaLang.Distinct(Keys(g)) &&
      (forall i :: 0 <= i < |g| ==> g[i].0 in GradeCalculator.GradeOrder && g[i].1 >= 1) &&
      Total(g) == |students| &&
      Lookup(g, "F") == |students| - PassedCount(students)
  {
    var gs := Grades(students);
    CountByFacts(gs);
    GradeKeys(gs);
    FailuresAreFGrades(students);
  }

  lemma {:induction false} GradeKeys(gs: seq<string>)
    requires forall i :: 0 <= i < |gs| ==> gs[i] in GradeCalculator.GradeOrder
    ensures forall i :: 0 <= i < |CountBy(gs)| ==> CountBy(gs)[i].0 in GradeCalculator.GradeOrder
  {
    CountByFacts(gs);
    var g := CountBy(gs);
    forall i | 0 <= i < |g| ensures g[i].0 in GradeCalculator.GradeOrder {
      assert g[i].0 in Keys(g);
      assert g[i].0 in gs;
    }
  }

  /** The F grades are exactly the failures. */
  lemma {:induction false} FailuresAreFGrades(students: seq<StudentRecord>)
    ensures Occurrences(Grades(students), "F") == |students| - PassedCount(students)
  {
    if students != [] {
      var init := students[..|students| - 1];
      FailuresAreFGrades(init);
      assert Grades(students)[..|students| - 1] == Grades(init);
      GradeCalculator.PassedIffNotFailing(students[|students| - 1].marks);
    }
  }

  /** With at least one student, the two percentages add up to 100. */
  lemma {:induction false} PercentagesComplement(st: Statistics)
    requires st.Consistent() && st.totalStudents > 0
    ensures st.PassPercentage() + st.FailPercentage() == 100.0
  {
    var t := st.totalStudents as real;
    var p := st.passedStudents as real;
    var f := st.failedStudents as real;
    assert p + f == t;
    calc {
      p / t * 100.0 + f / t * 100.0;
      (p + f) / t * 100.0;
      t / t * 100.0;
      100.0;
    }
  }
}
