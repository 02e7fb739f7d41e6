/** Weekly timetables shared by the class manager and the dashboard: a class
    carries a list of (day, start, end) slots, with times as "HH:MM" text. */
module Timetable {
  import opened Optional

  datatype Slot = Slot(day: string, start: string, end: string)

  /** A class. `schedule` is `None` when the stored weekly schedule is not an
      array at all. */
  datatype ClassItem = ClassItem(id: int, name: string, targetGrade: string, schedule: Option<seq<Slot>>)

  /** The slot a new class or a new row of the editor starts with: Monday 18:00-20:00. */
  const DefaultSlot := Slot("월", "18:00", "20:00")

  /** The class has an array schedule with a slot on `day`. */
  predicate MeetsOn(c: ClassItem, day: string) {
    c.schedule.Some? && exists i :: 0 <= i < |c.schedule.value| && c.schedule.value[i].day == day
  }

  /** The position of the first slot on `day`, or the length when there is none. */
  function FirstSlotIndex(slots: seq<Slot>, day: string): (i: nat)
    ensures i <= |slots|
    ensures forall j :: 0 <= j < i ==> slots[j].day != day
    ensures i < |slots| ==> slots[i].day == day
  {
    if |slots| == 0 then 0
    else if slots[0].day == day then 0
    else 1 + FirstSlotIndex(slots[1..], day)
  }

  /** `weekly_schedule.find(s => s.day === day)`. */
  function FirstSlotOn(slots: seq<Slot>, day: string): (r: Option<Slot>)
    ensures r.None? <==> forall i :: 0 <= i < |slots| ==> slots[i].day != day
    ensures r.Some? ==> r.value in slots && r.value.day == day
    ensures r.Some? ==> exists i :: 0 <= i < |slots| && r.value == slots[i]
                                    && forall j :: 0 <= j < i ==> slots[j].day != day
  {
    var i := FirstSlotIndex(slots, day);
    if i < |slots| then Some(slots[i]) else None
  }

  /** The slot the lookup finds is determined by first-ness alone: a slot on
      `day` with no earlier slot on `day` is the one returned. */
  lemma {:induction false} FirstSlotOnIsFirst(slots: seq<Slot>, day: string, i: nat)
    requires i < |slots| && slots[i].day == day
    requires forall j :: 0 <= j < i ==> slots[j].day != day
    ensures FirstSlotOn(slots, day) == Some(slots[i])
  {
    if i > 0 {
      assert slots[0].day != day;
      FirstSlotOnIsFirst(slots[1..], day, i - 1);
    }
  }
}
