/** The parent-facing report page: the score colour bands, the homework
    badge, the highlighted score and the order of the score chart. */
module Report {
  import opened Calendar
  import ClassEvaluation

  /** The bar colours of the score chart. */
  datatype BarColor = Indigo | Blue | Green | Yellow

  /** `getScoreColor`: four bands, each exactly one score range: 90 and
      above, 80-89, 70-79, below 70. */
  function ScoreColor(score: int): (c: BarColor)
    ensures c == Indigo <==> score >= 90
    ensures c == Blue <==> 80 <= score < 90
    ensures c == Green <==> 70 <= score < 80
    ensures c == Yellow <==> score < 70
  {
    if score >= 90 then Indigo
    else if score >= 80 then Blue
    else if score >= 70 then Green
    else Yellow
  }

  /** The bands ranked from the lowest scores to the highest. */
  function BandRank(c: BarColor): nat {
    match c
    case Yellow => 0
    case Green => 1
    case Blue => 2
    case Indigo => 3
  }

  /** A higher score never gets a lower band. */
  lemma ScoreColorMonotone(a: int, b: int)
    requires a <= b
    ensures BandRank(ScoreColor(a)) <= BandRank(ScoreColor(b))
  {
  }

  /** The score text is highlighted from 80 up: exactly the scores of the
      two top bands. */
  predicate Highlighted(score: int)
    ensures Highlighted(score) <==> ScoreColor(score) == Indigo || ScoreColor(score) == Blue
  {
    score >= 80
  }

  datatype Badge = GreenBadge | RedBadge | YellowBadge

  /** The homework badge: complete (완료) green, not submitted (미제출) red,
      anything else yellow. */
  function HomeworkBadge(homework: string): (b: Badge)
    ensures b == GreenBadge <==> homework == "완료"
    ensures b == RedBadge <==> homework == "미제출"
    ensures b == YellowBadge <==> homework != "완료" && homework != "미제출"
  {
    if homework == "완료" then GreenBadge
    else if homework == "미제출" then RedBadge
    else YellowBadge
  }

  /** A report saved for an absent student shows the yellow badge. */
  lemma AbsentReportBadge(f: ClassEvaluation.EvalForm, studentId: int, classId: int, date: string,
                          parseInt: string -> int)
    requires ClassEvaluation.IsAbsent(f)
    ensures HomeworkBadge(ClassEvaluation.Save(f, studentId, classId, date, parseInt).1.homework) == YellowBadge
  {
  }

  /** One fetched report. */
  datatype ReportEntry = ReportEntry(id: int, reportDate: Date, score: int, homework: string, comment: string)

  /** `[...reports].reverse()`: the order of the chart's bars. */
  function ChartOrder(reports: seq<ReportEntry>): (r: seq<ReportEntry>)
    ensures |r| == |reports|
    ensures forall i :: 0 <= i < |r| ==> r[i] == reports[|reports| - 1 - i]
  {
    if |reports| == 0 then []
    else ChartOrder(reports[1..]) + [reports[0]]
  }

  predicate NewestFirst(reports: seq<ReportEntry>) {
    forall i, j :: 0 <= i < j < |reports| ==> NotAfter(reports[j].reportDate, reports[i].reportDate)
  }

  predicate OldestFirst(reports: seq<ReportEntry>) {
    forall i, j :: 0 <= i < j < |reports| ==> NotAfter(reports[i].reportDate, reports[j].reportDate)
  }

  /** Reports fetched newest first are charted oldest first. */
  lemma ChartIsOldestFirst(reports: seq<ReportEntry>)
    requires NewestFirst(reports)
    ensures OldestFirst(ChartOrder(reports))
  {
    var r := ChartOrder(reports);
    forall i, j | 0 <= i < j < |r|
      ensures NotAfter(r[i].reportDate, r[j].reportDate)
    {
      assert r[i] == reports[|reports| - 1 - i] && r[j] == reports[|reports| - 1 - j];
    }
  }

  /** Reversing twice gives the fetched order back. */
  lemma ChartOrderInvolution(reports: seq<ReportEntry>)
    ensures ChartOrder(ChartOrder(reports)) == reports
  {
  }
}
