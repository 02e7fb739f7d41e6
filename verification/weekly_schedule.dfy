/** The dashboard's weekly timetable: for each weekday the classes meeting
    that day, ordered by the start time of their slot on that day. */
module WeeklySchedule {
  import opened Optional
  import opened Text
  import opened Timetable

  /** The two rendered rows of days; Sunday (일) has no column. */
  const Row1: seq<string> := ["월", "화", "수"]
  const Row2: seq<string> := ["목", "금", "토"]

  function RenderedDays(): (days: seq<string>)
    ensures |days| == 6
    ensures "일" !in days
  {
    Row1 + Row2
  }

  /** The start time the sort uses: that of the first slot on `day`, or ""
      when there is none. */
  function StartOn(c: ClassItem, day: string): (start: string)
    ensures !MeetsOn(c, day) ==> start == ""
    ensures MeetsOn(c, day) ==> exists i :: 0 <= i < |c.schedule.value|
                                   && c.schedule.value[i].day == day && c.schedule.value[i].start == start
                                   && forall j :: 0 <= j < i ==> c.schedule.value[j].day != day
  {
    if c.schedule.None? then ""
    else
      var slot := FirstSlotOn(c.schedule.value, day);
      if slot.Some? then slot.value.start else ""
  }

  /** The slot shown on the class's card in the column of `day`. */
  function DisplayedSlot(c: ClassItem, day: string): (r: Option<Slot>)
    ensures r.Some? <==> MeetsOn(c, day)
    ensures r.Some? ==> r.value.day == day && r.value.start == StartOn(c, day)
    ensures r.Some? ==> exists i :: 0 <= i < |c.schedule.value| && r.value == c.schedule.value[i]
                                    && forall j :: 0 <= j < i ==> c.schedule.value[j].day != day
  {
    if c.schedule.None? then None else FirstSlotOn(c.schedule.value, day)
  }

  /** The classes meeting on `day`, in input order. */
  function MeetingOn(classes: seq<ClassItem>, day: string): (r: seq<ClassItem>)
    ensures |r| <= |classes|
    ensures forall c :: c in r <==> c in classes && MeetsOn(c, day)
    ensures forall c :: c in multiset(r) ==> multiset(r)[c] <= multiset(classes)[c]
  {
    if |classes| == 0 then []
    else
      assert classes == [classes[0]] + classes[1..];
      (if MeetsOn(classes[0], day) then [classes[0]] else []) + MeetingOn(classes[1..], day)
  }

  /** Ordered by start time on `day`, earliest first. */
  predicate SortedOn(cs: seq<ClassItem>, day: string) {
    forall i, j :: 0 <= i < j < |cs| ==> LessEq(StartOn(cs[i], day), StartOn(cs[j], day))
  }

  /** Put `c` in front of the first class that starts no earlier than it. */
  function Insert(c: ClassItem, sorted: seq<ClassItem>, day: string): (r: seq<ClassItem>)
    requires SortedOn(sorted, day)
    ensures multiset(r) == multiset(sorted) + multiset{c}
    ensures SortedOn(r, day)
  {
    if |sorted| == 0 then [c]
    else if LessEq(StartOn(c, day), StartOn(sorted[0], day)) then
      InsertFrontSorted(c, sorted, day);
      [c] + sorted
    else
      var rest := Insert(c, sorted[1..], day);
      InsertAfterHead(c, sorted, rest, day);
      [sorted[0]] + rest
  }

  lemma InsertFrontSorted(c: ClassItem, sorted: seq<ClassItem>, day: string)
    requires SortedOn(sorted, day) && |sorted| > 0
    requires LessEq(StartOn(c, day), StartOn(sorted[0], day))
    ensures SortedOn([c] + sorted, day)
  {
    var r := [c] + sorted;
    forall i, j | 0 <= i < j < |r|
      ensures LessEq(StartOn(r[i], day), StartOn(r[j], day))
    {
      if i == 0 && j > 1 {
        LessEqTransitive(StartOn(c, day), StartOn(sorted[0], day), StartOn(sorted[j - 1], day));
      }
    }
  }

  lemma InsertAfterHead(c: ClassItem, sorted: seq<ClassItem>, rest: seq<ClassItem>, day: string)
    requires SortedOn(sorted, day) && |sorted| > 0
    requires !LessEq(StartOn(c, day), StartOn(sorted[0], day))
    requires SortedOn(rest, day)
    requires multiset(rest) == multiset(sorted[1..]) + multiset{c}
    ensures multiset([sorted[0]] + rest) == multiset(sorted) + multiset{c}
    ensures SortedOn([sorted[0]] + rest, day)
  {
    assert sorted == [sorted[0]] + sorted[1..];
    LessEqTotal(StartOn(c, day), StartOn(sorted[0], day));
    HeadBeforeRest(sorted[0], sorted[1..], c, rest, day);
  }

  lemma HeadBeforeRest(h: ClassItem, tail: seq<ClassItem>, c: ClassItem, rest: seq<ClassItem>, day: string)
    requires SortedOn([h] + tail, day) && SortedOn(rest, day)
    requires LessEq(StartOn(h, day), StartOn(c, day))
    requires multiset(rest) == multiset(tail) + multiset{c}
    ensures SortedOn([h] + rest, day)
  {
    var r := [h] + rest;
    forall i, j | 0 <= i < j < |r|
      ensures LessEq(StartOn(r[i], day), StartOn(r[j], day))
    {
      if i == 0 {
        var x := rest[j - 1];
        assert r[0] == h && r[j] == x;
        assert x in multiset(rest);
        if x != c {
          assert x in multiset(tail);
          var k :| 0 <= k < |tail| && tail[k] == x;
          var l := [h] + tail;
          assert l[0] == h && l[k + 1] == x;
          assert LessEq(StartOn(l[0], day), StartOn(l[k + 1], day));
        } else {
          assert LessEq(StartOn(h, day), StartOn(c, day));
        }
      } else {
        assert r[i] == rest[i - 1] && r[j] == rest[j - 1];
      }
    }
  }

  /** A stable insertion sort by start time on `day`. */
  function SortByStart(cs: seq<ClassItem>, day: string): (r: seq<ClassItem>)
    ensures multiset(r) == multiset(cs)
    ensures SortedOn(r, day)
  {
    if |cs| == 0 then []
    else
      assert cs == [cs[0]] + cs[1..];
      Insert(cs[0], SortByStart(cs[1..], day), day)
  }

  /** `getClassesForDay`: the classes meeting on `day`, earliest start first. */
  function ClassesForDay(classes: seq<ClassItem>, day: string): (r: seq<ClassItem>)
    ensures multiset(r) == multiset(MeetingOn(classes, day))
    ensures forall c :: c in r <==> c in classes && MeetsOn(c, day)
    ensures SortedOn(r, day)
  {
    var r := SortByStart(MeetingOn(classes, day), day);
    assert forall c :: c in r <==> c in multiset(r);
    r
  }

  /** Every listed class shows its first slot on that day, and that slot's
      start is the time the list is sorted by. */
  lemma DisplayedSlotIsSortKey(classes: seq<ClassItem>, day: string, c: ClassItem)
    requires c in ClassesForDay(classes, day)
    ensures DisplayedSlot(c, day).Some?
    ensures DisplayedSlot(c, day).value.day == day
    ensures DisplayedSlot(c, day).value.start == StartOn(c, day)
  {
  }

  /** A class meeting Monday at 10:00 and again at 14:00 is sorted and shown
      by its 10:00 slot, the first one on Monday. */
  lemma TwoMondaySlotsUseFirst(c: ClassItem)
    requires c.schedule == Some([Slot("월", "10:00", "12:00"), Slot("월", "14:00", "16:00")])
    ensures StartOn(c, "월") == "10:00"
    ensures DisplayedSlot(c, "월") == Some(Slot("월", "10:00", "12:00"))
  {
    FirstSlotOnIsFirst(c.schedule.value, "월", 0);
  }

  /** A class that meets only on Sunday appears in no rendered column. */
  lemma SundayOnlyNeverShown(classes: seq<ClassItem>, c: ClassItem, day: string)
    requires c.schedule.Some?
    requires forall i :: 0 <= i < |c.schedule.value| ==> c.schedule.value[i].day == "일"
    requires day in RenderedDays()
    ensures c !in ClassesForDay(classes, day)
  {
  }
}
