/** The class manager: the class form (name, school level, grade, timetable
    slots), the target grade label it stores, and the student-assignment dialog
    (selection toggling, ordering of the roster, the rows it saves). */
module ClassManager {
  import opened Optional
  import opened Text
  import opened Timetable

  // ------------------------------------------------------------ grade labels

  /** The stored target grade: school level followed by the grade number, as
      in "중2" (`${schoolLevel}${gradeLevel}`). */
  function ComposeGrade(level: string, grade: string): (stored: string)
    ensures |stored| == |level| + |grade|
    ensures stored[..|level|] == level && stored[|level|..] == grade
  {
    level + grade
  }

  /** The edit form's reading of a stored label: its first character and the
      rest (`charAt(0)` and `slice(1)`, both empty for an empty label). */
  function ParseGrade(stored: string): (r: (string, string))
    ensures |r.0| <= 1
    ensures r.0 + r.1 == stored
  {
    if |stored| == 0 then ("", "") else (stored[..1], stored[1..])
  }

  /** Parsing a composed label gives back the one-character level and the grade. */
  lemma ParseComposeRoundTrip(level: string, grade: string)
    requires |level| == 1
    ensures ParseGrade(ComposeGrade(level, grade)) == (level, grade)
  {
    var stored := ComposeGrade(level, grade);
    assert stored[..1] == level;
    assert stored[1..] == grade;
  }

  /** Composing the two parts of any parsed label gives the label back. */
  lemma ComposeParseRoundTrip(stored: string)
    ensures ComposeGrade(ParseGrade(stored).0, ParseGrade(stored).1) == stored
  {
  }

  /** `getGradeOptions`: "1".."6" for elementary school (초), "1".."3" otherwise. */
  function GradeOptions(level: string): (r: seq<string>)
    ensures |r| == if level == "초" then 6 else 3
    ensures forall i :: 0 <= i < |r| ==> r[i] == [(('1' as int) + i) as char]
  {
    var n := if level == "초" then 6 else 3;
    seq(n, i requires 0 <= i < n => [(('1' as int) + i) as char])
  }

  // ------------------------------------------------------------- slot editing

  /** `addScheduleSlot`: the default slot is appended. */
  function AddSlot(slots: seq<Slot>): (r: seq<Slot>)
    ensures |r| == |slots| + 1
    ensures r[..|slots|] == slots && r[|slots|] == DefaultSlot
  {
    slots + [DefaultSlot]
  }

  /** `removeScheduleSlot(idx)`: keep every slot whose index is not `idx`. */
  function RemoveSlot(slots: seq<Slot>, idx: int): (r: seq<Slot>)
    ensures 0 <= idx < |slots| ==> r == slots[..idx] + slots[idx + 1..]
    ensures !(0 <= idx < |slots|) ==> r == slots
  {
    if |slots| == 0 then []
    else
      var rest := RemoveSlot(slots[1..], idx - 1);
      assert slots == [slots[0]] + slots[1..];
      (if idx == 0 then [] else [slots[0]]) + rest
  }

  /** Removing the slot just added gives the previous slots back. */
  lemma RemoveAddedSlot(slots: seq<Slot>)
    ensures RemoveSlot(AddSlot(slots), |slots|) == slots
  {
  }

  /** The three editable fields of a slot. */
  datatype Field = Day | Start | End

  function SetField(s: Slot, f: Field, v: string): (r: Slot)
    ensures f == Day ==> r == Slot(v, s.start, s.end)
    ensures f == Start ==> r == Slot(s.day, v, s.end)
    ensures f == End ==> r == Slot(s.day, s.start, v)
  {
    match f
    case Day => s.(day := v)
    case Start => s.(start := v)
    case End => s.(end := v)
  }

  /** `updateSchedule(idx, key, val)`: only that field of that slot changes.
      The index always comes from a rendered row, so it is in range. */
  function UpdateSlot(slots: seq<Slot>, idx: int, f: Field, v: string): (r: seq<Slot>)
    requires 0 <= idx < |slots|
    ensures |r| == |slots|
    ensures forall i :: 0 <= i < |r| && i != idx ==> r[i] == slots[i]
    ensures r[idx] == SetField(slots[idx], f, v)
  {
    slots[idx := SetField(slots[idx], f, v)]
  }

  /** The slots the editor opens with: the class's own when it has a
      non-empty array schedule, otherwise the single default slot. */
  function EditorSlots(schedule: Option<seq<Slot>>): (r: seq<Slot>)
    ensures |r| >= 1
    ensures schedule.Some? && |schedule.value| > 0 ==> r == schedule.value
    ensures !(schedule.Some? && |schedule.value| > 0) ==> r == [DefaultSlot]
  {
    match schedule
    case Some(slots) => if |slots| > 0 then slots else [DefaultSlot]
    case None => [DefaultSlot]
  }

  // ---------------------------------------------------------------- class form

  datatype ClassForm = ClassForm(name: string, level: string, grade: string, slots: seq<Slot>)

  /** `openCreateModal`: empty name, middle school, grade 1, one default slot. */
  function NewClassForm(): (f: ClassForm)
    ensures f.name == "" && |f.slots| == 1 && f.slots[0] == DefaultSlot
    ensures f.level == "중" && f.grade == "1"
    ensures f.grade in GradeOptions(f.level)
  {
    assert GradeOptions("중")[0] == "1";
    ClassForm("", "중", "1", [DefaultSlot])
  }

  /** `openEditModal`: the class's name, its target grade split into level and
      grade, and its slots (or the default slot). */
  function EditClassForm(c: ClassItem): (f: ClassForm)
    ensures f.name == c.name
    ensures (f.level, f.grade) == ParseGrade(c.targetGrade)
    ensures f.slots == EditorSlots(c.schedule)
  {
    var parts := ParseGrade(c.targetGrade);
    ClassForm(c.name, parts.0, parts.1, EditorSlots(c.schedule))
  }

  /** What `handleSaveClass` sends, or why it refuses. */
  datatype SaveOutcome = MissingName | Payload(name: string, targetGrade: string, slots: seq<Slot>)

  function SaveClass(f: ClassForm): (r: SaveOutcome)
    ensures r.MissingName? <==> f.name == ""
    ensures r.Payload? ==> r.name == f.name && r.targetGrade == ComposeGrade(f.level, f.grade) && r.slots == f.slots
  {
    if f.name == "" then MissingName else Payload(f.name, ComposeGrade(f.level, f.grade), f.slots)
  }

  /** Opening a named class for editing and saving without changes stores the
      same name and target grade, and the same slots when it had any. */
  lemma EditUnchangedKeepsClass(c: ClassItem)
    requires c.name != ""
    ensures SaveClass(EditClassForm(c)).Payload?
    ensures SaveClass(EditClassForm(c)).name == c.name
    ensures SaveClass(EditClassForm(c)).targetGrade == c.targetGrade
    ensures c.schedule.Some? && |c.schedule.value| > 0 ==> SaveClass(EditClassForm(c)).slots == c.schedule.value
  {
    ComposeParseRoundTrip(c.targetGrade);
  }

  // -------------------------------------------------------- student selection

  /** The dialog's selection is a JavaScript `Set`: no id twice, kept in
      insertion order. */
  predicate NoDuplicates(ids: seq<int>) {
    forall i, j :: 0 <= i < j < |ids| ==> ids[i] != ids[j]
  }

  /** `ids` without `id`, order kept. */
  function Without(ids: seq<int>, id: int): (r: seq<int>)
    ensures forall x :: x in r <==> x in ids && x != id
    ensures NoDuplicates(ids) ==> NoDuplicates(r)
    ensures id !in ids ==> r == ids
  {
    if |ids| == 0 then []
    else
      var rest := Without(ids[1..], id);
      assert forall x :: x in ids <==> x == ids[0] || x in ids[1..];
      assert ids == [ids[0]] + ids[1..];
      assert NoDuplicates(ids) ==> NoDuplicates(ids[1..]) && ids[0] !in rest;
      ConsNoDuplicates(ids[0], rest);
      (if ids[0] == id then [] else [ids[0]]) + rest
  }

  /** Putting a new id in front of a list without duplicates keeps it so. */
  lemma ConsNoDuplicates(h: int, rest: seq<int>)
    ensures NoDuplicates(rest) && h !in rest ==> NoDuplicates([h] + rest)
  {
    if NoDuplicates(rest) && h !in rest {
      var l := [h] + rest;
      forall i, j | 0 <= i < j < |l|
        ensures l[i] != l[j]
      {
        if i == 0 {
          assert l[j] == rest[j - 1];
        } else {
          assert l[i] == rest[i - 1] && l[j] == rest[j - 1];
        }
      }
    }
  }

  /** `toggleStudentEnrollment`: a selected id is removed, any other is added at the end. */
  function Toggle(ids: seq<int>, id: int): (r: seq<int>)
    requires NoDuplicates(ids)
    ensures NoDuplicates(r)
    ensures id in r <==> id !in ids
    ensures forall x :: x != id ==> (x in r <==> x in ids)
  {
    if id in ids then Without(ids, id) else ids + [id]
  }

  /** Toggling the same id twice restores the selection as a set, and
      restores it exactly when the id was not selected. */
  lemma ToggleTwice(ids: seq<int>, id: int)
    requires NoDuplicates(ids)
    ensures forall x :: x in Toggle(Toggle(ids, id), id) <==> x in ids
    ensures id !in ids ==> Toggle(Toggle(ids, id), id) == ids
  {
    if id !in ids {
      WithoutAppended(ids, id);
    }
  }

  /** Removing an id that was just appended to a list without it gives the list back. */
  lemma {:induction false} WithoutAppended(ids: seq<int>, id: int)
    requires id !in ids
    ensures Without(ids + [id], id) == ids
  {
    if |ids| == 0 {
      assert [id][1..] == [];
    } else {
      assert (ids + [id])[1..] == ids[1..] + [id];
      WithoutAppended(ids[1..], id);
      assert ids == [ids[0]] + ids[1..];
    }
  }

  datatype EnrollmentRow = EnrollmentRow(classId: int, studentId: int)

  /** `saveEnrollments`: one row per selected id, in selection order. */
  function EnrollmentRows(classId: int, ids: seq<int>): (r: seq<EnrollmentRow>)
    ensures |r| == |ids|
    ensures forall i :: 0 <= i < |r| ==> r[i] == EnrollmentRow(classId, ids[i])
  {
    seq(|ids|, i requires 0 <= i < |ids| => EnrollmentRow(classId, ids[i]))
  }

  /** Every selected student gets exactly one row of this class and nobody
      else gets one. */
  lemma EnrollmentRowsExact(classId: int, ids: seq<int>, sid: int)
    requires NoDuplicates(ids)
    ensures EnrollmentRow(classId, sid) in EnrollmentRows(classId, ids) <==> sid in ids
    ensures forall i, j :: 0 <= i < j < |ids| ==> EnrollmentRows(classId, ids)[i] != EnrollmentRows(classId, ids)[j]
    ensures forall row :: row in EnrollmentRows(classId, ids) ==> row.classId == classId
  {
    var rows := EnrollmentRows(classId, ids);
    if sid in ids {
      var i :| 0 <= i < |ids| && ids[i] == sid;
      assert rows[i] == EnrollmentRow(classId, sid);
    }
  }

  // ------------------------------------------------------------- roster order

  /** A student as listed in the dialog; `enrollments` is `None` when the
      joined enrollment list is missing. */
  datatype Pupil = Pupil(id: int, name: string, grade: string, enrollments: Option<seq<int>>)

  predicate IsTarget(p: Pupil, target: string) {
    p.grade == target
  }

  predicate IsUnassigned(p: Pupil) {
    p.enrollments.None? || |p.enrollments.value| == 0
  }

  /** The dialog's sort comparator: target-grade unassigned students first,
      then other target-grade students, then the rest, each group by name. */
  function CompareForTarget(a: Pupil, b: Pupil, target: string): (r: int)
    ensures -1 <= r <= 1
    ensures IsTarget(a, target) && IsUnassigned(a) && !(IsTarget(b, target) && IsUnassigned(b)) ==> r == -1
    ensures IsTarget(a, target) && !IsTarget(b, target) ==> r == -1
    ensures r == 0 ==> a.name == b.name
  {
    var ta := IsTarget(a, target);
    var tb := IsTarget(b, target);
    var ua := IsUnassigned(a);
    var ub := IsUnassigned(b);
    if ta && ua && (!tb || !ub) then -1
    else if tb && ub && (!ta || !ua) then 1
    else if ta && !tb then -1
    else if tb && !ta then 1
    else Compare(a.name, b.name)
  }

  /** `false` sorts before `true`. */
  function BoolCompare(x: bool, y: bool): int {
    if x == y then 0 else if !x then -1 else 1
  }

  /** Lexicographic comparison of the keys (not (target and unassigned),
      not target, name). */
  function KeyCompare(a: Pupil, b: Pupil, target: string): int {
    var first := BoolCompare(!(IsTarget(a, target) && IsUnassigned(a)), !(IsTarget(b, target) && IsUnassigned(b)));
    var second := BoolCompare(!IsTarget(a, target), !IsTarget(b, target));
    if first != 0 then first else if second != 0 then second else Compare(a.name, b.name)
  }

  /** The comparator is exactly the lexicographic key order. */
  lemma ComparatorIsKeyOrder(a: Pupil, b: Pupil, target: string)
    ensures CompareForTarget(a, b, target) == KeyCompare(a, b, target)
  {
  }

  /** The comparator is antisymmetric, and it calls two students equal only
      when they share the group and the name. */
  lemma ComparatorAntisymmetric(a: Pupil, b: Pupil, target: string)
    ensures CompareForTarget(b, a, target) == -CompareForTarget(a, b, target)
    ensures CompareForTarget(a, b, target) == 0 <==>
              (IsTarget(a, target) <==> IsTarget(b, target))
              && (IsTarget(a, target) && IsUnassigned(a) <==> IsTarget(b, target) && IsUnassigned(b))
              && a.name == b.name
  {
    CompareFlip(a.name, b.name);
  }

  /** The "recommended" badge: target grade, not in any class, not ticked. */
  predicate Recommended(p: Pupil, target: string, selected: seq<int>) {
    IsTarget(p, target) && IsUnassigned(p) && p.id !in selected
  }

  /** Ticking a recommended student removes the badge, and unticking an
      unassigned target-grade student brings it back. */
  lemma TickingClearsRecommendation(p: Pupil, target: string, selected: seq<int>)
    requires NoDuplicates(selected)
    ensures Recommended(p, target, selected) ==> !Recommended(p, target, Toggle(selected, p.id))
    ensures IsTarget(p, target) && IsUnassigned(p) && p.id in selected
            ==> Recommended(p, target, Toggle(selected, p.id))
  {
  }

  /** A recommended student sorts before every student who is not an
      unassigned target-grade student. */
  lemma RecommendedSortFirst(a: Pupil, b: Pupil, target: string, selected: seq<int>)
    requires Recommended(a, target, selected)
    requires !(IsTarget(b, target) && IsUnassigned(b))
    ensures CompareForTarget(a, b, target) < 0
  {
  }
}
