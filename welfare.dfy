/** The row rules of the student welfare report: the derived marks of one
    student, the three-way welfare classification, the row-wise enrichment
    of a table and the summary counts.

    Marks and attendance are integers. The average of the three marks is
    kept in exact integer hundredths (8333 stands for 83.33), which is the
    value the report shows after rounding to two decimals. */
module Welfare {

  /** One input row. Name and activity points take part in no computation
      and are carried along unchanged. */
  datatype Student = Student(
    name: string,
    math: int,
    science: int,
    english: int,
    attendance: int,
    activityPoints: int)

  /** The welfare label of a row. */
  datatype Status = NeedsSupport | Good | Excellent

  /** A row after the columns Total Marks, Average Marks (in hundredths)
      and Welfare_Status have been added. */
  datatype Enriched = Enriched(
    student: Student,
    totalMarks: int,
    averageMarks: int,
    status: Status)

  /** The three summary metrics of the report. */
  datatype Summary = Summary(
    totalStudents: nat,
    excellentCount: nat,
    needsSupportCount: nat)

  // Thresholds of the classification; averages are in hundredths.
  const SupportAverage: int := 5000
  const SupportAttendance: int := 60
  const ExcellentAverage: int := 8000
  const ExcellentAttendance: int := 85

  /** The text the report shows for a status. */
  function Label(s: Status): string
  {
    match s
    case NeedsSupport => "Needs Support"
    case Good => "Good"
    case Excellent => "Excellent"
  }

  /** Distinct statuses are shown as distinct texts, so counting rows whose
      label equals a given text counts the rows of that status. */
  lemma LabelsDistinct(s: Status, t: Status)
    ensures Label(s) == Label(t) <==> s == t
  {
  }

  function Abs(x: int): nat
  {
    if x < 0 then -x else x
  }

  function Min3(a: int, b: int, c: int): int
  {
    if a <= b && a <= c then a else if b <= c then b else c
  }

  function Max3(a: int, b: int, c: int): int
  {
    if a >= b && a >= c then a else if b >= c then b else c
  }

  // ---------------------------------------------------------------------
  // Derived marks of one row
  // ---------------------------------------------------------------------

  function TotalMarks(s: Student): int
  {
    s.math + s.science + s.english
  }

  /** The mean of three marks that sum to `total`, rounded to two decimals
      and expressed in hundredths. The exact mean in hundredths is
      100 * total / 3; its fractional part is 0, 1/3 or 2/3, so the nearest
      integer is unique and no tie-breaking rule is ever consulted. */
  function AverageHundredths(total: int): (r: int)
    ensures -1 <= 3 * r - 100 * total <= 1
  {
    (100 * total + 1) / 3
  }

  /** The rounded average is the unique nearest two-decimal value to the
      exact mean: every other candidate is strictly farther away. */
  lemma AverageIsNearest(total: int, k: int)
    ensures Abs(3 * k - 100 * total) >= Abs(3 * AverageHundredths(total) - 100 * total)
    ensures k != AverageHundredths(total) ==>
              Abs(3 * k - 100 * total) > Abs(3 * AverageHundredths(total) - 100 * total)
  {
    var r := AverageHundredths(total);
    if k < r {
      assert 3 * k <= 3 * r - 3;
    } else if k > r {
      assert 3 * k >= 3 * r + 3;
    }
  }

  /** A larger total never gives a smaller average. */
  lemma AverageMonotone(t1: int, t2: int)
    requires t1 <= t2
    ensures AverageHundredths(t1) <= AverageHundredths(t2)
  {
  }

  /** Rounding never moves a row across the "Needs Support" threshold:
      the rounded average is below 50.00 exactly when the total is below 150. */
  lemma AverageBelowSupportIff(total: int)
    ensures AverageHundredths(total) < SupportAverage <==> total < 150
  {
    var r := AverageHundredths(total);
    if total < 150 {
      assert 3 * r <= 100 * total + 1 <= 14901;
    } else {
      assert 3 * r >= 100 * total - 1 >= 14999;
    }
  }

  /** Rounding never moves a row across the "Excellent" threshold:
      the rounded average is at least 80.00 exactly when the total is at
      least 240. */
  lemma AverageReachesExcellentIff(total: int)
    ensures AverageHundredths(total) >= ExcellentAverage <==> total >= 240
  {
    var r := AverageHundredths(total);
    if total < 240 {
      assert 3 * r <= 100 * total + 1 <= 23901;
    } else {
      assert 3 * r >= 100 * total - 1 >= 23999;
    }
  }

  /** The average lies between the smallest and the largest of the three
      marks; in particular it lies in [0.00, 100.00] when the marks lie in
      [0, 100]. */
  lemma AverageWithinMarks(s: Student)
    ensures 100 * Min3(s.math, s.science, s.english)
              <= AverageHundredths(TotalMarks(s))
              <= 100 * Max3(s.math, s.science, s.english)
    ensures 0 <= s.math <= 100 && 0 <= s.science <= 100 && 0 <= s.english <= 100 ==>
              0 <= AverageHundredths(TotalMarks(s)) <= 10000
  {
    var lo, hi := Min3(s.math, s.science, s.english), Max3(s.math, s.science, s.english);
    var t, r := TotalMarks(s), AverageHundredths(TotalMarks(s));
    assert 3 * lo <= t <= 3 * hi;
    assert 3 * r >= 300 * lo - 1;
    assert 3 * r <= 300 * hi + 1;
  }

  // ---------------------------------------------------------------------
  // Welfare classification
  // ---------------------------------------------------------------------

  /** The welfare rule, with its branches in their priority order: the
      "Needs Support" test first, then the "Excellent" test, else "Good".
      `average` is in hundredths, `attendance` in percent. */
  function Classify(average: int, attendance: int): (r: Status)
    ensures r == NeedsSupport <==> average < SupportAverage || attendance < SupportAttendance
    ensures r == Excellent <==> average >= ExcellentAverage && attendance >= ExcellentAttendance
    ensures r == Good <==>
              average >= SupportAverage && attendance >= SupportAttendance &&
              (average < ExcellentAverage || attendance < ExcellentAttendance)
  {
    if average < SupportAverage || attendance < SupportAttendance then
      NeedsSupport
    else if average >= ExcellentAverage && attendance >= ExcellentAttendance then
      Excellent
    else
      Good
  }

  /** The same rule with the "Excellent" test tried first. */
  function ClassifyExcellentFirst(average: int, attendance: int): Status
  {
    if average >= ExcellentAverage && attendance >= ExcellentAttendance then
      Excellent
    else if average < SupportAverage || attendance < SupportAttendance then
      NeedsSupport
    else
      Good
  }

  /** The two tested conditions can never both hold, so the priority of the
      "Needs Support" branch never changes a row's status: trying the
      branches in the other order classifies every row the same way. */
  lemma BranchOrderImmaterial(average: int, attendance: int)
    ensures !((average < SupportAverage || attendance < SupportAttendance) &&
              (average >= ExcellentAverage && attendance >= ExcellentAttendance))
    ensures Classify(average, attendance) == ClassifyExcellentFirst(average, attendance)
  {
  }

  /** The order NeedsSupport < Good < Excellent. */
  function Rank(s: Status): nat
  {
    match s
    case NeedsSupport => 0
    case Good => 1
    case Excellent => 2
  }

  /** A higher average or a higher attendance never lowers the status. */
  lemma ClassifyMonotone(avg1: int, att1: int, avg2: int, att2: int)
    requires avg1 <= avg2 && att1 <= att2
    ensures Rank(Classify(avg1, att1)) <= Rank(Classify(avg2, att2))
  {
  }

  // ---------------------------------------------------------------------
  // One row
  // ---------------------------------------------------------------------

  /** Adds the three derived fields to one row. */
  function Enrich(s: Student): (r: Enriched)
    ensures r.student == s
    ensures r.totalMarks == s.math + s.science + s.english
    ensures -1 <= 3 * r.averageMarks - 100 * r.totalMarks <= 1
    ensures r.status == Classify(r.averageMarks, s.attendance)
  {
    var total := TotalMarks(s);
    var average := AverageHundredths(total);
    Enriched(s, total, average, Classify(average, s.attendance))
  }

  /** A row's status stated on its raw marks, without any rounding: the
      rounded average agrees with the unrounded one at both thresholds. */
  lemma StatusByMarks(s: Student)
    ensures Enrich(s).status == NeedsSupport <==>
              TotalMarks(s) < 150 || s.attendance < SupportAttendance
    ensures Enrich(s).status == Excellent <==>
              TotalMarks(s) >= 240 && s.attendance >= ExcellentAttendance
    ensures Enrich(s).status == Good <==>
              150 <= TotalMarks(s) && SupportAttendance <= s.attendance &&
              (TotalMarks(s) < 240 || s.attendance < ExcellentAttendance)
  {
    AverageBelowSupportIff(TotalMarks(s));
    AverageReachesExcellentIff(TotalMarks(s));
  }

  /** Raising any mark or the attendance of a student never lowers the
      student's status. */
  lemma EnrichMonotone(s: Student, u: Student)
    requires s.math <= u.math && s.science <= u.science && s.english <= u.english
    requires s.attendance <= u.attendance
    ensures Rank(Enrich(s).status) <= Rank(Enrich(u).status)
  {
    AverageMonotone(TotalMarks(s), TotalMarks(u));
    ClassifyMonotone(Enrich(s).averageMarks, s.attendance, Enrich(u).averageMarks, u.attendance);
  }

  // ---------------------------------------------------------------------
  // The whole table
  // ---------------------------------------------------------------------

  /** The row-wise application: every row is enriched on its own, and the
      number and order of the rows are kept. */
  function EnrichAll(rows: seq<Student>): (r: seq<Enriched>)
    ensures |r| == |rows|
    ensures forall i :: 0 <= i < |rows| ==> r[i] == Enrich(rows[i])
  {
    if rows == [] then [] else [Enrich(rows[0])] + EnrichAll(rows[1..])
  }

  /** The status of a row depends on nothing but that row's Average Marks
      and Attendance: not on its position, nor on the other rows. */
  lemma StatusDependsOnlyOnRow(a: seq<Student>, i: nat, b: seq<Student>, j: nat)
    requires i < |a| && j < |b|
    requires AverageHundredths(TotalMarks(a[i])) == AverageHundredths(TotalMarks(b[j]))
    requires a[i].attendance == b[j].attendance
    ensures EnrichAll(a)[i].status == EnrichAll(b)[j].status
  {
  }

  /** The Welfare_Status column of an enriched table. */
  function StatusColumn(rows: seq<Enriched>): (r: seq<Status>)
    ensures |r| == |rows|
    ensures forall i :: 0 <= i < |rows| ==> r[i] == rows[i].status
  {
    if rows == [] then [] else [rows[0].status] + StatusColumn(rows[1..])
  }

  // ---------------------------------------------------------------------
  // Summary counts
  // ---------------------------------------------------------------------

  /** The number of entries of a status column equal to `wanted`. */
  function Count(column: seq<Status>, wanted: Status): (n: nat)
    ensures n <= |column|
    ensures n == 0 <==> wanted !in column
    ensures n == |column| <==> forall i :: 0 <= i < |column| ==> column[i] == wanted
  {
    if column == [] then 0
    else (if column[0] == wanted then 1 else 0) + Count(column[1..], wanted)
  }

  /** The count is the multiplicity of the wanted in the column. */
  lemma {:induction false} CountIsMultiplicity(column: seq<Status>, wanted: Status)
    ensures Count(column, wanted) == multiset(column)[wanted]
  {
    if column != [] {
      CountIsMultiplicity(column[1..], wanted);
      assert column == [column[0]] + column[1..];
      assert multiset(column) == multiset([column[0]]) + multiset(column[1..]);
    }
  }

  /** Every row carries exactly one of the three statuses, so the three
      counts add up to the number of rows. */
  lemma {:induction false} CountPartition(column: seq<Status>)
    ensures Count(column, Excellent) + Count(column, NeedsSupport) + Count(column, Good) == |column|
  {
    if column != [] {
      CountPartition(column[1..]);
    }
  }

  /** The summary metrics read off a Welfare_Status column: the number of
      entries, of Excellent entries and of Needs Support entries; the
      remaining entries are exactly the Good ones. */
  function SummarizeColumn(column: seq<Status>): (r: Summary)
    ensures r.totalStudents == |column|
    ensures r.excellentCount == multiset(column)[Excellent]
    ensures r.needsSupportCount == multiset(column)[NeedsSupport]
    ensures r.excellentCount + r.needsSupportCount <= r.totalStudents
    ensures r.totalStudents - r.excellentCount - r.needsSupportCount == multiset(column)[Good]
  {
    CountIsMultiplicity(column, Excellent);
    CountIsMultiplicity(column, NeedsSupport);
    CountIsMultiplicity(column, Good);
    CountPartition(column);
    Summary(|column|, Count(column, Excellent), Count(column, NeedsSupport))
  }

  /** The summary metrics of an enriched table, taken from its status
      column. */
  function Summarize(rows: seq<Enriched>): (r: Summary)
    ensures r.totalStudents == |rows|
    ensures r.excellentCount == multiset(StatusColumn(rows))[Excellent]
    ensures r.needsSupportCount == multiset(StatusColumn(rows))[NeedsSupport]
    ensures r.excellentCount + r.needsSupportCount <= r.totalStudents
    ensures r.totalStudents - r.excellentCount - r.needsSupportCount
              == multiset(StatusColumn(rows))[Good]
  {
    SummarizeColumn(StatusColumn(rows))
  }

  /** A concrete two-row table: one excellent student and one who needs
      support. */
  lemma TwoRowExample()
    ensures var rows := EnrichAll([Student("A", 90, 90, 90, 95, 10), Student("B", 30, 40, 35, 50, 20)]);
            && rows[0].averageMarks == 9000 && rows[1].averageMarks == 3500
            && StatusColumn(rows) == [Excellent, NeedsSupport]
            && Summarize(rows) == Summary(2, 1, 1)
  {
    var a, b := Student("A", 90, 90, 90, 95, 10), Student("B", 30, 40, 35, 50, 20);
    var rows := EnrichAll([a, b]);
    assert rows == [Enrich(a), Enrich(b)];
    assert StatusColumn(rows) == [Excellent, NeedsSupport];
    assert Count([Excellent, NeedsSupport], Excellent) == 1;
    assert Count([Excellent, NeedsSupport], NeedsSupport) == 1;
  }
}
