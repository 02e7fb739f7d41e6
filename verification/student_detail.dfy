/** The student-detail screen's derived figures: attendance and homework
    rates and the recent comments of the student's evaluations, the due day
    taken from the enrollment date, the score tab filter and the chart's
    vertical coordinate. */
module StudentDetail {
  import opened Optional
  import opened Text
  import opened Calendar
  import Billing

  // ------------------------------------------------------------- evaluations

  /** One evaluation as fetched, newest first. Statuses are the stored
      strings; a null comment, creation stamp or lesson date is `None`. */
  datatype Evaluation = Evaluation(
    attendance: string,
    homework: string,
    comment: Option<string>,
    createdAt: Option<string>,
    classDate: Option<string>)

  datatype RecentComment = RecentComment(date: string, text: string)

  /** The figures shown in the statistics card (the two averages are
      floating-point and not modelled). */
  datatype Stats = Stats(attendanceRate: int, homeworkRate: int, comments: seq<RecentComment>)

  /** Present or late counts as attended; absent and anything else does not. */
  predicate Attended(e: Evaluation) {
    e.attendance == "present" || e.attendance == "late"
  }

  predicate HomeworkDone(e: Evaluation) {
    e.homework == "complete"
  }

  function AttendedCount(evals: seq<Evaluation>): (n: nat)
    ensures n <= |evals|
    ensures n == |evals| <==> forall i :: 0 <= i < |evals| ==> Attended(evals[i])
    ensures n == 0 <==> forall i :: 0 <= i < |evals| ==> !Attended(evals[i])
    ensures |evals| == 1 ==> n == if Attended(evals[0]) then 1 else 0
  {
    if |evals| == 0 then 0
    else
      assert forall i :: 0 < i < |evals| ==> evals[i] == evals[1..][i - 1];
      (if Attended(evals[0]) then 1 else 0) + AttendedCount(evals[1..])
  }

  function HomeworkDoneCount(evals: seq<Evaluation>): (n: nat)
    ensures n <= |evals|
    ensures n == |evals| <==> forall i :: 0 <= i < |evals| ==> HomeworkDone(evals[i])
    ensures n == 0 <==> forall i :: 0 <= i < |evals| ==> !HomeworkDone(evals[i])
    ensures |evals| == 1 ==> n == if HomeworkDone(evals[0]) then 1 else 0
  {
    if |evals| == 0 then 0
    else
      assert forall i :: 0 < i < |evals| ==> evals[i] == evals[1..][i - 1];
      (if HomeworkDone(evals[0]) then 1 else 0) + HomeworkDoneCount(evals[1..])
  }

  /** The counts add up over consecutive runs of evaluations; with the
      one-element case this makes each count exactly the number of matching
      evaluations. */
  lemma {:induction false} CountsAppend(a: seq<Evaluation>, b: seq<Evaluation>)
    ensures AttendedCount(a + b) == AttendedCount(a) + AttendedCount(b)
    ensures HomeworkDoneCount(a + b) == HomeworkDoneCount(a) + HomeworkDoneCount(b)
  {
    if |a| == 0 {
      assert a + b == b;
    } else {
      assert (a + b)[0] == a[0];
      assert (a + b)[1..] == a[1..] + b;
      CountsAppend(a[1..], b);
    }
  }

  /** `Math.round(part / total * 100)` over exact rationals: the integer
      nearest to the percentage, halves rounded up. */
  function RoundPercent(part: nat, total: nat): (r: int)
    requires 0 < total && part <= total
    ensures 0 <= r <= 100
    ensures total * (2 * r - 1) <= 200 * part < total * (2 * r + 1)
    ensures part == 0 ==> r == 0
    ensures part == total ==> r == 100
  {
    var r := (200 * part + total) / (2 * total);
    RoundingFacts(part, total, r);
    r
  }

  lemma RoundingFacts(part: nat, total: nat, r: int)
    requires 0 < total && part <= total
    requires r == (200 * part + total) / (2 * total)
    ensures 0 <= r <= 100
    ensures total * (2 * r - 1) <= 200 * part < total * (2 * r + 1)
    ensures part == 0 ==> r == 0
    ensures part == total ==> r == 100
  {
    var a := 200 * part + total;
    var b := 2 * total;
    var m := a % b;
    assert a == b * r + m && 0 <= m < b;
    assert b * r == total * (2 * r);
    assert total * (2 * r - 1) == total * (2 * r) - total;
    assert total * (2 * r + 1) == total * (2 * r) + total;
    if r < 0 {
      MulMono(b, r, -1);
    }
    if r > 100 {
      MulMono(b, 101, r);
      MulMono(200, part, total);
    }
    if part == 0 && r > 0 {
      MulMono(b, 1, r);
    }
    if part == total && r < 100 {
      MulMono(b, r, 99);
    }
  }

  lemma MulMono(x: int, y: int, z: int)
    requires x >= 0 && y <= z
    ensures x * y <= x * z
  {
  }

  /** An evaluation carries a comment: the stored comment is not null and not empty. */
  predicate HasComment(e: Evaluation) {
    e.comment.Some? && e.comment.value != ""
  }

  /** The evaluations with a comment, in input order. */
  function WithComment(evals: seq<Evaluation>): (r: seq<Evaluation>)
    ensures |r| <= |evals|
    ensures forall e :: e in r <==> e in evals && HasComment(e)
    ensures |evals| == 1 ==> r == if HasComment(evals[0]) then evals else []
  {
    if |evals| == 0 then []
    else
      assert forall e :: e in evals <==> e == evals[0] || e in evals[1..];
      (if HasComment(evals[0]) then [evals[0]] else []) + WithComment(evals[1..])
  }

  /** The filter keeps fetched order: filtering consecutive runs and joining
      the results is filtering the whole. */
  lemma {:induction false} WithCommentAppend(a: seq<Evaluation>, b: seq<Evaluation>)
    ensures WithComment(a + b) == WithComment(a) + WithComment(b)
  {
    if |a| == 0 {
      assert a + b == b;
    } else {
      assert (a + b)[0] == a[0];
      assert (a + b)[1..] == a[1..] + b;
      WithCommentAppend(a[1..], b);
    }
  }

  /** The date shown with a comment: the lesson date if set, else the date
      part of the creation stamp (before 'T') if not empty, else "-". */
  function CommentDate(e: Evaluation): (d: string)
    ensures d != ""
    ensures e.classDate.Some? && e.classDate.value != "" ==> d == e.classDate.value
    ensures !(e.classDate.Some? && e.classDate.value != "") && e.createdAt.Some? && BeforeFirst(e.createdAt.value, 'T') != ""
            ==> d == BeforeFirst(e.createdAt.value, 'T') && 'T' !in d && d <= e.createdAt.value
    ensures (!(e.classDate.Some? && e.classDate.value != "")
             && !(e.createdAt.Some? && BeforeFirst(e.createdAt.value, 'T') != "")) ==> d == "-"
  {
    if e.classDate.Some? && e.classDate.value != "" then e.classDate.value
    else
      var stamp := if e.createdAt.Some? then BeforeFirst(e.createdAt.value, 'T') else "";
      if stamp != "" then stamp else "-"
  }

  function ToRecentComment(e: Evaluation): RecentComment
    requires HasComment(e)
  {
    RecentComment(CommentDate(e), e.comment.value)
  }

  /** The first three commented evaluations, as shown in the card. */
  function RecentComments(evals: seq<Evaluation>): (r: seq<RecentComment>)
    ensures |r| <= 3
    ensures |r| == if |WithComment(evals)| < 3 then |WithComment(evals)| else 3
    ensures forall i :: 0 <= i < |r| ==> r[i] == ToRecentComment(WithComment(evals)[i])
    ensures forall i :: 0 <= i < |r| ==> r[i].text != "" && r[i].date != ""
  {
    var commented := WithComment(evals);
    var firstThree := if |commented| < 3 then commented else commented[..3];
    assert forall i :: 0 <= i < |firstThree| ==> firstThree[i] in commented;
    seq(|firstThree|, i requires 0 <= i < |firstThree| => ToRecentComment(firstThree[i]))
  }

  /** The statistics block of `fetchData`: all zero with no comments when the
      student has no evaluations. */
  function ComputeStats(evals: seq<Evaluation>): (st: Stats)
    ensures |evals| == 0 ==> st == Stats(0, 0, [])
    ensures 0 <= st.attendanceRate <= 100 && 0 <= st.homeworkRate <= 100
    ensures |evals| > 0 ==> st.attendanceRate == RoundPercent(AttendedCount(evals), |evals|)
    ensures |evals| > 0 ==> st.homeworkRate == RoundPercent(HomeworkDoneCount(evals), |evals|)
    ensures st.comments == RecentComments(evals)
  {
    if |evals| == 0 then Stats(0, 0, [])
    else
      Stats(RoundPercent(AttendedCount(evals), |evals|),
            RoundPercent(HomeworkDoneCount(evals), |evals|),
            RecentComments(evals))
  }

  /** A student with full attendance and all homework complete shows 100%. */
  lemma PerfectRecordIsHundred(evals: seq<Evaluation>)
    requires |evals| > 0
    requires forall i :: 0 <= i < |evals| ==> Attended(evals[i]) && HomeworkDone(evals[i])
    ensures ComputeStats(evals).attendanceRate == 100 && ComputeStats(evals).homeworkRate == 100
  {
  }

  // --------------------------------------------------- saving basic information

  /** The edit form's enrollment date: the stored one, or today when unset. */
  function FormEnrollmentDate(s: Billing.Student, today: Date): (d: Date)
    ensures s.enrollment.Some? ==> d == s.enrollment.value
    ensures s.enrollment.None? ==> d == today
  {
    s.enrollment.GetOr(today)
  }

  /** `handleSaveInfo`: the enrollment date is stored and the due day becomes
      that date's day of the month. */
  function SaveInfo(s: Billing.Student, enrollment: Date): (r: Billing.Student)
    requires ValidDate(enrollment)
    ensures r.enrollment == Some(enrollment)
    ensures 1 <= r.paymentDay <= 31 && r.paymentDay == enrollment.day
    ensures r.id == s.id && r.tuitionFee == s.tuitionFee
  {
    s.(enrollment := Some(enrollment), paymentDay := enrollment.day)
  }

  /** After saving, the enrollment month falls due on the enrollment date
      itself, and every later month no later than that day of the month. */
  lemma SavedDueDateIsEnrollmentDate(s: Billing.Student, enrollment: Date, ym: YearMonth)
    requires ValidDate(enrollment) && ValidMonth(ym)
    ensures Billing.DueDate(SaveInfo(s, enrollment).paymentDay, MonthOf(enrollment)) == enrollment
    ensures Billing.DueDay(SaveInfo(s, enrollment).paymentDay, ym) <= enrollment.day
  {
  }

  /** Saving the form as opened keeps a stored enrollment date, and the due
      day becomes its day of the month. */
  lemma UnchangedFormKeepsEnrollment(s: Billing.Student, today: Date)
    requires s.enrollment.Some? && ValidDate(s.enrollment.value)
    ensures SaveInfo(s, FormEnrollmentDate(s, today)).enrollment == s.enrollment
    ensures SaveInfo(s, FormEnrollmentDate(s, today)).paymentDay == s.enrollment.value.day
  {
  }

  // ------------------------------------------------------------ exam scores

  datatype ExamScore = ExamScore(id: int, category: string, examName: string, score: int, examDate: string)

  /** `currentScores`: the scores of the active tab, in fetched order. */
  function CurrentScores(scores: seq<ExamScore>, tab: string): (r: seq<ExamScore>)
    ensures |r| <= |scores|
    ensures forall x :: x in r <==> x in scores && x.category == tab
    ensures |scores| == 1 ==> r == if scores[0].category == tab then scores else []
  {
    if |scores| == 0 then []
    else
      assert forall x :: x in scores <==> x == scores[0] || x in scores[1..];
      (if scores[0].category == tab then [scores[0]] else []) + CurrentScores(scores[1..], tab)
  }

  /** The tab filter keeps fetched order. */
  lemma {:induction false} CurrentScoresAppend(a: seq<ExamScore>, b: seq<ExamScore>, tab: string)
    ensures CurrentScores(a + b, tab) == CurrentScores(a, tab) + CurrentScores(b, tab)
  {
    if |a| == 0 {
      assert a + b == b;
    } else {
      assert (a + b)[0] == a[0];
      assert (a + b)[1..] == a[1..] + b;
      CurrentScoresAppend(a[1..], b, tab);
    }
  }

  /** The chart's vertical coordinate: 100 minus the score clamped to 0..100. */
  function ChartY(score: int): (y: int)
    ensures 0 <= y <= 100
    ensures 0 <= score <= 100 ==> y == 100 - score
    ensures score >= 100 ==> y == 0
    ensures score <= 0 ==> y == 100
  {
    var clamped := if score < 0 then 0 else if score > 100 then 100 else score;
    100 - clamped
  }

  /** A higher score is never drawn lower on the chart. */
  lemma ChartYAntitone(a: int, b: int)
    requires a <= b
    ensures ChartY(b) <= ChartY(a)
  {
  }
}
