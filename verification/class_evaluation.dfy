/** The lesson-evaluation dialog: the form it opens with, and the attendance
    record and lesson report it derives when saved. */
module ClassEvaluation {
  import opened Optional

  /** The dialog's form; the score is the raw text of the score field. */
  datatype EvalForm = EvalForm(status: string, topic: string, homework: string, score: string, comment: string)

  datatype AttendanceRecord = AttendanceRecord(studentId: int, classId: int, status: string, date: string)

  /** The stored lesson report; `topics` is the list serialised into `topic_ids`. */
  datatype LessonReport = LessonReport(
    studentId: int, classId: int, date: string,
    topics: seq<string>, homework: string, score: int, comment: string)

  /** The marker put in front of an absent student's comment. */
  const AbsentMarker: string := "[결석] "

  /** The homework value stored for an absent student ("not applicable"). */
  const NotApplicable: string := "해당없음"

  /** `openEvaluationModal`: present, homework complete (완료), everything else empty. */
  function OpenEvaluationForm(): (f: EvalForm)
    ensures f.status == "present" && f.homework == "완료"
    ensures f.topic == "" && f.score == "" && f.comment == ""
  {
    EvalForm("present", "", "완료", "", "")
  }

  predicate IsAbsent(f: EvalForm) {
    f.status == "absent"
  }

  /** The stored score: 0 for an absent student or an empty field, otherwise
      the field as parsed by `parseInt` (passed in, it is not modelled). */
  function FinalScore(f: EvalForm, parseInt: string -> int): (r: int)
    ensures IsAbsent(f) ==> r == 0
    ensures !IsAbsent(f) && f.score == "" ==> r == 0
    ensures !IsAbsent(f) && f.score != "" ==> r == parseInt(f.score)
  {
    if IsAbsent(f) || f.score == "" then 0 else parseInt(f.score)
  }

  /** `handleSave`: the attendance record and the lesson report. */
  function Save(f: EvalForm, studentId: int, classId: int, date: string, parseInt: string -> int)
    : (r: (AttendanceRecord, LessonReport))
    ensures r.0 == AttendanceRecord(studentId, classId, f.status, date)
    ensures r.1.studentId == studentId && r.1.classId == classId && r.1.date == date
    ensures r.1.topics == [f.topic]
    ensures r.1.score == FinalScore(f, parseInt)
    ensures IsAbsent(f) ==> r.1.homework == NotApplicable
    ensures !IsAbsent(f) ==> r.1.homework == f.homework
    ensures IsAbsent(f) ==> |r.1.comment| == |f.comment| + |AbsentMarker|
                            && r.1.comment[..|AbsentMarker|] == AbsentMarker
                            && r.1.comment[|AbsentMarker|..] == f.comment
    ensures !IsAbsent(f) ==> r.1.comment == f.comment
  {
    var homework := if IsAbsent(f) then NotApplicable else f.homework;
    var comment := if IsAbsent(f) then AbsentMarker + f.comment else f.comment;
    (AttendanceRecord(studentId, classId, f.status, date),
     LessonReport(studentId, classId, date, [f.topic], homework, FinalScore(f, parseInt), comment))
  }

  /** Reading the marker back off a stored comment. */
  function StripAbsentMarker(comment: string): (r: Option<string>)
    ensures r.Some? <==> |comment| >= |AbsentMarker| && comment[..|AbsentMarker|] == AbsentMarker
    ensures r.Some? ==> AbsentMarker + r.value == comment
  {
    if |comment| >= |AbsentMarker| && comment[..|AbsentMarker|] == AbsentMarker
    then Some(comment[|AbsentMarker|..])
    else None
  }

  /** The comment of an absent student's report carries the marker, and
      stripping it gives back exactly what the teacher typed. */
  lemma AbsentCommentRoundTrip(f: EvalForm, studentId: int, classId: int, date: string, parseInt: string -> int)
    requires IsAbsent(f)
    ensures StripAbsentMarker(Save(f, studentId, classId, date, parseInt).1.comment) == Some(f.comment)
  {
    var c := Save(f, studentId, classId, date, parseInt).1.comment;
    assert c == AbsentMarker + f.comment;
    assert c[..|AbsentMarker|] == AbsentMarker;
  }

  /** For an absent student whatever was typed as score, the report is the same. */
  lemma AbsentIgnoresScoreField(f: EvalForm, typed: string, studentId: int, classId: int, date: string,
                                parseInt: string -> int)
    requires IsAbsent(f)
    ensures Save(f.(score := typed), studentId, classId, date, parseInt) == Save(f, studentId, classId, date, parseInt)
  {
  }

  /** Saving a freshly opened form with only a topic filled in stores score 0,
      homework complete and an empty comment. */
  lemma FreshFormSavesDefaults(topic: string, studentId: int, classId: int, date: string, parseInt: string -> int)
    ensures var r := Save(OpenEvaluationForm().(topic := topic), studentId, classId, date, parseInt).1;
            r.score == 0 && r.homework == "완료" && r.comment == "" && r.topics == [topic]
  {
  }
}
