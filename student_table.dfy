/** The report's table as the script builds it: a frame of columns that
    grows in place, one derived column after another, and the summary
    read off its Welfare_Status column. */
module StudentTable {
  import opened Welfare

  /** A column that the frame may not have yet. */
  datatype Column<T> = Absent | Present(values: seq<T>)

  class Frame {
    // The input columns.
    var name: seq<string>
    var math: seq<int>
    var science: seq<int>
    var english: seq<int>
    var attendance: seq<int>
    var activityPoints: seq<int>
    // The derived columns, absent until they are added.
    var totalMarks: Column<int>
    var averageMarks: Column<int>
    var welfareStatus: Column<Status>

    /** The number of rows. */
    function Length(): nat
      reads this
    {
      |name|
    }

    /** All columns that are present have one entry per row. */
    ghost predicate Valid()
      reads this
    {
      && |math| == Length() && |science| == Length() && |english| == Length()
      && |attendance| == Length() && |activityPoints| == Length()
      && (totalMarks.Present? ==> |totalMarks.values| == Length())
      && (averageMarks.Present? ==> |averageMarks.values| == Length())
      && (welfareStatus.Present? ==> |welfareStatus.values| == Length())
    }

    /** True once all three derived columns have been added. */
    ghost predicate Complete()
      reads this
    {
      totalMarks.Present? && averageMarks.Present? && welfareStatus.Present?
    }

    /** The input rows, read back from the input columns. */
    ghost function Students(): (r: seq<Student>)
      reads this
      requires Valid()
      ensures |r| == Length()
    {
      var nm, ma, sc, en, at, ap := name, math, science, english, attendance, activityPoints;
      seq(|nm|, i requires 0 <= i < |nm| =>
        Student(nm[i], ma[i], sc[i], en[i], at[i], ap[i]))
    }

    /** The enriched rows, read back from all columns. */
    ghost function Rows(): (r: seq<Enriched>)
      reads this
      requires Valid() && Complete()
      ensures |r| == Length()
    {
      var st, tm, am, ws := Students(), totalMarks.values, averageMarks.values, welfareStatus.values;
      seq(|st|, i requires 0 <= i < |st| => Enriched(st[i], tm[i], am[i], ws[i]))
    }

    /** Builds the frame from its input rows, keeping their order. */
    constructor (rows: seq<Student>)
      ensures Valid() && Students() == rows
      ensures totalMarks == Absent && averageMarks == Absent && welfareStatus == Absent
    {
      name := seq(|rows|, i requires 0 <= i < |rows| => rows[i].name);
      math := seq(|rows|, i requires 0 <= i < |rows| => rows[i].math);
      science := seq(|rows|, i requires 0 <= i < |rows| => rows[i].science);
      english := seq(|rows|, i requires 0 <= i < |rows| => rows[i].english);
      attendance := seq(|rows|, i requires 0 <= i < |rows| => rows[i].attendance);
      activityPoints := seq(|rows|, i requires 0 <= i < |rows| => rows[i].activityPoints);
      totalMarks, averageMarks, welfareStatus := Absent, Absent, Absent;
    }

    /** Adds the Total Marks column: each row's three marks summed. */
    method AddTotalMarks()
      requires Valid()
      modifies this`totalMarks
      ensures Valid() && totalMarks.Present?
      ensures forall i :: 0 <= i < Length() ==>
                totalMarks.values[i] == math[i] + science[i] + english[i]
    {
      var ma, sc, en := math, science, english;
      totalMarks := Present(seq(|ma|, i requires 0 <= i < |ma| => ma[i] + sc[i] + en[i]));
    }

    /** Adds the Average Marks column: each row's mean mark, rounded to two
        decimals, in hundredths. It is computed from the mark columns, not
        from Total Marks. */
    method AddAverageMarks()
      requires Valid()
      modifies this`averageMarks
      ensures Valid() && averageMarks.Present?
      ensures forall i :: 0 <= i < Length() ==>
                -1 <= 3 * averageMarks.values[i] - 100 * (math[i] + science[i] + english[i]) <= 1
      ensures forall i :: 0 <= i < Length() ==>
                averageMarks.values[i] == Enrich(Students()[i]).averageMarks
    {
      var ma, sc, en := math, science, english;
      averageMarks := Present(seq(|ma|, i requires 0 <= i < |ma| =>
        AverageHundredths(ma[i] + sc[i] + en[i])));
    }

    /** Adds the Welfare_Status column by applying the welfare rule to every
        row in turn, on that row's Average Marks and Attendance. */
    method AddWelfareStatus()
      requires Valid() && averageMarks.Present?
      modifies this`welfareStatus
      ensures Valid() && welfareStatus.Present?
      ensures forall i :: 0 <= i < Length() ==>
                welfareStatus.values[i] == Classify(averageMarks.values[i], attendance[i])
    {
      var column: seq<Status> := [];
      var i := 0;
      while i < |name|
        invariant 0 <= i <= |name|
        invariant |column| == i
        invariant forall k :: 0 <= k < i ==>
                    column[k] == Classify(averageMarks.values[k], attendance[k])
      {
        column := column + [Classify(averageMarks.values[i], attendance[i])];
        i := i + 1;
      }
      welfareStatus := Present(column);
    }

    /** Adds the three derived columns in the script's order. Afterwards
        the frame holds exactly the row-wise enrichment of its input rows. */
    method AddDerivedColumns()
      requires Valid()
      modifies this`totalMarks, this`averageMarks, this`welfareStatus
      ensures Valid() && Complete()
      ensures Students() == old(Students())
      ensures Rows() == EnrichAll(Students())
    {
      AddTotalMarks();
      AddAverageMarks();
      AddWelfareStatus();
      forall i | 0 <= i < Length()
        ensures Rows()[i] == EnrichAll(Students())[i]
      {
        var s := Students()[i];
        assert TotalMarks(s) == math[i] + science[i] + english[i];
      }
    }

    /** The summary metrics, read off the Welfare_Status column. */
    method Summarize() returns (r: Summary)
      requires Valid() && welfareStatus.Present?
      ensures r.totalStudents == Length()
      ensures r.excellentCount == multiset(welfareStatus.values)[Excellent]
      ensures r.needsSupportCount == multiset(welfareStatus.values)[NeedsSupport]
      ensures r.totalStudents - r.excellentCount - r.needsSupportCount
                == multiset(welfareStatus.values)[Good]
      ensures Complete() ==> r == Welfare.Summarize(Rows())
    {
      r := SummarizeColumn(welfareStatus.values);
      if Complete() {
        assert StatusColumn(Rows()) == welfareStatus.values;
      }
    }
  }
}
