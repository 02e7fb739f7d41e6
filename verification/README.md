# Tuition arrears and academy-screen rules, in Dafny

This project models the bookkeeping core of a small academy-management web
app (a React front end over a hosted database) and proves properties of it.

The centre is the payment-management view. For every student it computes the
**total unpaid tuition** (`calculateTotalUnpaid`). The computation walks from
the student's enrollment month to the month on screen. For each month it finds
the due date: the student's `payment_day`, with 0 read as the 1st, pulled back
to the last day of short months. A month counts only once its due date has
arrived. It then adds the flat fee when the ledger holds no payment by that
student dated in that month. Around it sit:

- the viewed month's paid flag and paid date;
- the name filter, the paid total and the unpaid count;
- the default fee by school level, and the fee/due-day edit form;
- month navigation.

The model also holds the smaller pure rules of the other screens:

- the student-detail statistics (attendance and homework rates, recent
  comments), the due day taken from the enrollment date, the exam-score tab
  filter and the chart's y coordinate;
- the class manager's grade label, timetable-slot edits, the
  student-selection toggle, the rows saved for a class and the roster
  comparator;
- the dashboard's per-day timetable (filter and sort);
- the values derived when a lesson evaluation is saved;
- the settings screen's section state, load fallbacks and password checks;
- the report page's score colours, homework badge and chart order.

Modelling choices:

- Dates are `Date(year, month, day)` integers with the Gregorian leap-year
  rule.
- A month is numbered `12*year + month - 1`. Dafny's Euclidean division by 12
  then matches JavaScript `Date`'s month carry, so `moveMonth` is "add to the
  month number".
- The current date is a parameter `today`.
- The source compares the deadline (local midnight) with the current instant.
  So a month is already due on its due date.
- Arrears are defined declaratively as `fee * |owed months|`, where the owed
  months are a set comprehension. The loop that mirrors the source
  (`Billing.CalculateTotalUnpaid`) is proved to compute exactly that.
- `localeCompare` is modelled as code-point lexicographic order
  (`Text.Compare`).
- `parseInt` is a function parameter.
- A JavaScript `Set` of ids is a duplicate-free sequence in insertion order.

Files:

- `optional.dfy`, `text.dfy` and `calendar.dfy` are shared vocabulary.
- `billing.dfy` and `billing_laws.dfy` hold the arrears core and its laws.
- `payment_manager.dfy`, `student_detail.dfy`, `class_manager.dfy`,
  `timetable.dfy`, `weekly_schedule.dfy`, `class_evaluation.dfy`,
  `settings.dfy` and `report.dfy` follow the source screens.

## Model

| member | source | states |
|---|---|---|
| Calendar.DaysInMonth | src/pages/PaymentManager.tsx:94 | a month has 28 to 31 days: 29 exactly for February of a leap year, 28 for other Februaries, 30 exactly for April, June, September and November |
| Calendar.OfIndex | src/pages/PaymentManager.tsx:80-81 | the month carry of `new Date(y, m, 1)`: every month number maps to a valid (year, month) whose number it is |
| Calendar.IndexRoundTrip | src/pages/PaymentManager.tsx:99 | stepping months by number loses nothing: a valid month survives number-and-back unchanged |
| Calendar.IndexInjective | src/pages/PaymentManager.tsx:91 | two valid months have the same number iff they are the same month, so the loop visits each calendar month once |
| Calendar.IndexOrderIsDateOrder | src/pages/PaymentManager.tsx:98 | a date in an earlier-numbered month is strictly before any date in a later one |
| Calendar.NotAfterTransitive | src/pages/PaymentManager.tsx:98 | the date order used for the deadline test is transitive |
| Billing.EffectiveDay | src/pages/PaymentManager.tsx:95 | `payment_day \|\| 1`: the effective day is at least 1: an unset due day (0) reads as the 1st, any other day is kept as stored |
| Billing.DueDay | src/pages/PaymentManager.tsx:94-95 | the due day is the nominal day or the month's last day, whichever is smaller: never past the month's end, never later than the nominal day |
| Billing.DueDate | src/pages/PaymentManager.tsx:96 | the deadline is a real calendar date inside the month it belongs to |
| Billing.Arrears | src/pages/PaymentManager.tsx:85-113 | arrears are the fee times the number of owed months; 0 without an enrollment date, 0 for a zero fee, never negative for a non-negative fee, 0 when the viewed month is before enrollment |
| Billing.AnyPaymentIn | src/pages/PaymentManager.tsx:103-108 | the ledger scan finds a payment iff one is by this student and dated in that year and month |
| Billing.MonthCharge | src/pages/PaymentManager.tsx:92-110 | one month adds the fee iff its deadline is not after today and it has no payment, and nothing otherwise |
| Billing.CalculateTotalUnpaid | src/pages/PaymentManager.tsx:84-114 | the month-by-month loop returns exactly the declarative arrears, the fee times the set of due, unpaid months from enrollment to the viewed month |
| Billing.ChargeStep | src/pages/PaymentManager.tsx:110-111 | adding one month's charge to the running sum gives the arrears through that month |
| Billing.OwedBetweenExtend | src/pages/PaymentManager.tsx:91-112 | widening the window by one month adds that month exactly when it is owed |
| BillingLaws.ArrearsMonotoneInToday | src/pages/PaymentManager.tsx:98-101 | with a fixed ledger and a non-negative fee, a later today never gives smaller arrears |
| BillingLaws.PaymentsNeverRaiseArrears | src/pages/PaymentManager.tsx:103-110 | a ledger containing every payment of another never shows larger arrears |
| BillingLaws.LedgerOrderIrrelevant | src/pages/PaymentManager.tsx:103-108 | ledgers with the same payments in any order and with any repetition give the same arrears |
| BillingLaws.OtherStudentsPaymentIgnored | src/pages/PaymentManager.tsx:105 | another student's payment never changes this student's arrears |
| BillingLaws.OutOfWindowPaymentIgnored | src/pages/PaymentManager.tsx:88-91 | a payment dated before the enrollment month or after the viewed month changes nothing |
| BillingLaws.SecondPaymentInMonthIgnored | src/pages/PaymentManager.tsx:103-110 | a second payment in an already settled month changes nothing |
| BillingLaws.SettledViewedMonthNotOwed | src/pages/PaymentManager.tsx:103-110 | a viewed month with a payment is never among the owed months |
| BillingLaws.ArrearsStopAtToday | src/pages/PaymentManager.tsx:91-101 | viewing a month after today's month shows the same arrears as viewing today's month, because later months are never due |
| BillingLaws.DueFromTheDueDay | src/pages/PaymentManager.tsx:96-98 | within its own month a month becomes due exactly from its due day on, the due day itself included |
| BillingLaws.FebruaryDueDay | src/pages/PaymentManager.tsx:94-95 | due day 31 falls on 29 February in a leap year and on the 28th otherwise |
| BillingLaws.ScenarioNoPayments | src/pages/PaymentManager.tsx:84-114 | enrolled 2024-01-10, due on the 15th, fee 300000, no payments, on 2024-03-20 viewing March: 900000 |
| BillingLaws.ScenarioFebruaryPaid | src/pages/PaymentManager.tsx:84-114 | the same with a payment on 2024-02-12: 600000 |
| BillingLaws.ScenarioNotYetDue | src/pages/PaymentManager.tsx:98-101 | on 2024-01-12 the first month due on the 15th is not yet owed: 0 |
| BillingLaws.ScenarioLeapFebruary | src/pages/PaymentManager.tsx:94-98 | due day 31 in February 2024: owed on the 29th, not on the 28th |
| PaymentManager.MoveMonth | src/pages/PaymentManager.tsx:80-82 | `moveMonth(offset)` lands on a valid month exactly `offset` months away |
| PaymentManager.MoveMonthRoundTrip | src/pages/PaymentManager.tsx:80-82 | moving forward and back by the same offset returns to the same year and month |
| PaymentManager.MoveMonthCarriesYear | src/pages/PaymentManager.tsx:80-82 | December plus one is January of the next year, January minus one is December of the previous year |
| PaymentManager.MoveMonthWithinYear | src/pages/PaymentManager.tsx:80-82 | inside a year the next month keeps the year |
| PaymentManager.FirstPaymentIndex | src/pages/PaymentManager.tsx:170-173 | `find` stops at the first matching payment: no earlier one matches |
| PaymentManager.FindMonthPayment | src/pages/PaymentManager.tsx:170-173 | the viewed-month lookup finds nothing iff the student has no payment dated in the viewed year and month; what it finds is such a payment |
| PaymentManager.MakeRow | src/pages/PaymentManager.tsx:170-175 | a row is paid iff the viewed month is settled; the paid date is present iff paid and lies in the viewed month; the row carries the student's arrears |
| PaymentManager.ProcessedRows | src/pages/PaymentManager.tsx:169-176 | the rows are exactly those of the students whose name contains the search term, each built from its student; a single student gives one row iff the name matches |
| PaymentManager.ProcessedRowsAppend | src/pages/PaymentManager.tsx:169-176 | filtering and mapping a split list is the same as doing each part and joining the results, so the rows keep the students' order |
| PaymentManager.PaidRows | src/pages/PaymentManager.tsx:178 | the paid rows are exactly the rows whose paid flag is set; a single row is kept iff it is paid |
| PaymentManager.PaidRowsAppend | src/pages/PaymentManager.tsx:178 | the paid filter of a joined list is the join of the filters, so the paid rows keep their order |
| PaymentManager.AllPaidKeepsEveryRow | src/pages/PaymentManager.tsx:178 | when every row is paid the paid filter keeps every row in order |
| PaymentManager.SumFees | src/pages/PaymentManager.tsx:178 | the fee sum of one row is its fee, and the sum is not negative when no fee is |
| PaymentManager.SumFeesAppend | src/pages/PaymentManager.tsx:178 | the fee sum of joined lists is the sum of the parts' sums |
| PaymentManager.TotalAmount | src/pages/PaymentManager.tsx:178 | one row contributes its fee iff it is paid; the collected total is 0 when no row is paid and the sum of every fee when all are |
| PaymentManager.TotalAmountAppend | src/pages/PaymentManager.tsx:178 | the total of joined lists is the sum of the parts' totals, so with the one-row value it is the sum of the paid rows' fees on every list |
| PaymentManager.UnpaidCount | src/pages/PaymentManager.tsx:179 | the unpaid count is at most the row count, 0 iff every row is paid and the row count iff none is |
| PaymentManager.PaidAndUnpaidPartitionRows | src/pages/PaymentManager.tsx:178-179 | the paid rows plus the unpaid count are exactly all rows |
| PaymentManager.TotalAmountBounds | src/pages/PaymentManager.tsx:178 | with non-negative fees the paid total lies between 0 and all fees: 0 when nobody paid, all fees when everybody did |
| PaymentManager.StandardFee | src/pages/PaymentManager.tsx:132-137 | the default fee checks 초 first, then 중, then 고, and is 0 when the grade has none of them |
| PaymentManager.StandardFeeOfLevelGrade | src/pages/PaymentManager.tsx:132-137 | a grade written as a level character and digits gets its level's fee, any other first character 0 |
| PaymentManager.OpenEditForm | src/pages/PaymentManager.tsx:139-150 | the edit form shows the standard fee when the fee is 0 and the stored fee otherwise, and day 1 when the due day is unset (0) |
| PaymentManager.EditFormKeepsDueDates | src/pages/PaymentManager.tsx:148 | the form's prefilled day gives every month the same due day as the arrears computation already uses |
| PaymentManager.RecordPaymentAsWritten | src/pages/PaymentManager.tsx:119-125 | recording a payment appends one payment dated today, which settles today's month |
| PaymentManager.RecordedPaymentMissesViewedMonth | src/pages/PaymentManager.tsx:117-122 | paying for January 2024 on 2024-03-05 leaves January unsettled |
| PaymentManager.PaymentDateFor | src/pages/PaymentManager.tsx:117-122 | the corrected payment date lies in the viewed month, and is today when today is in it |
| PaymentManager.RecordPayment | src/pages/PaymentManager.tsx:117-125 | the corrected recording appends one payment by the student for the fee, keeps the ledger, and settles the viewed month |
| PaymentManager.RecordPaymentMarksRowPaid | src/pages/PaymentManager.tsx:117-128 | after the corrected recording the row shows paid and the viewed month is not owed |
| StudentDetail.AttendedCount | src/pages/StudentDetail.tsx:121 | one evaluation counts 1 iff it is present or late; the count is additive over joined lists, covers every evaluation iff all are present or late, and is 0 iff none is |
| StudentDetail.HomeworkDoneCount | src/pages/StudentDetail.tsx:122 | one evaluation counts 1 iff its homework is complete; the count is additive over joined lists, covers every evaluation iff all are complete, and is 0 iff none is |
| StudentDetail.CountsAppend | src/pages/StudentDetail.tsx:121-122 | both counts of a joined list are the sums of the counts of its parts |
| StudentDetail.RoundPercent | src/pages/StudentDetail.tsx:138-139 | the rate is the integer nearest to the percentage, within half a point, between 0 and 100; 0 for none and 100 for all |
| StudentDetail.WithComment | src/pages/StudentDetail.tsx:129 | the kept evaluations are exactly those with a non-empty comment; a single evaluation is kept iff it has one |
| StudentDetail.WithCommentAppend | src/pages/StudentDetail.tsx:129 | the comment filter of a joined list is the join of the filters, so the kept evaluations stay in fetched order |
| StudentDetail.CommentDate | src/pages/StudentDetail.tsx:133 | the comment date is the lesson date when set, else the creation stamp up to its first 'T' when non-empty, else "-"; never empty |
| StudentDetail.RecentComments | src/pages/StudentDetail.tsx:128-135 | at most three comments, the first commented evaluations in fetched order, each with non-empty text and date |
| StudentDetail.ComputeStats | src/pages/StudentDetail.tsx:119-152 | no evaluations give rates 0 and no comments; otherwise both rates are the rounded percentages, within 0 to 100 |
| StudentDetail.PerfectRecordIsHundred | src/pages/StudentDetail.tsx:119-143 | full attendance and homework give both rates 100 |
| StudentDetail.SaveInfo | src/pages/StudentDetail.tsx:163-173 | saving stores the enrollment date and sets the due day to its day of the month |
| StudentDetail.FormEnrollmentDate | src/pages/StudentDetail.tsx:89 | the form shows the stored enrollment date, or today when none is stored |
| StudentDetail.UnchangedFormKeepsEnrollment | src/pages/StudentDetail.tsx:89 | saving the form as opened keeps a stored enrollment date and sets the due day to its day of the month |
| StudentDetail.SavedDueDateIsEnrollmentDate | src/pages/StudentDetail.tsx:165-172 | after saving, the enrollment month falls due on the enrollment date itself, and no month later than that day |
| StudentDetail.CurrentScores | src/pages/StudentDetail.tsx:204 | the shown scores are exactly those of the active tab's category; a single score is shown iff it is of that category |
| StudentDetail.CurrentScoresAppend | src/pages/StudentDetail.tsx:204 | the category filter of a joined list is the join of the filters, so the scores keep their order |
| StudentDetail.ChartY | src/pages/StudentDetail.tsx:339 | the y coordinate is 100 minus the score clamped to 0..100, so always within 0..100 |
| StudentDetail.ChartYAntitone | src/pages/StudentDetail.tsx:339 | a higher score is never drawn lower |
| ClassManager.ParseGrade | src/pages/ClassManager.tsx:86-87 | the label splits into at most one leading character and the rest, which together give the label back |
| ClassManager.ParseComposeRoundTrip | src/pages/ClassManager.tsx:86-87 | parsing a label composed from a one-character level and a grade gives back that level and grade |
| ClassManager.ComposeParseRoundTrip | src/pages/ClassManager.tsx:105 | composing the parts of any parsed label gives the label back |
| ClassManager.GradeOptions | src/pages/ClassManager.tsx:177 | "1" to "6" for elementary school, "1" to "3" otherwise |
| ClassManager.AddSlot | src/pages/ClassManager.tsx:172 | adding appends the default Monday 18:00-20:00 slot and keeps the others |
| ClassManager.RemoveSlot | src/pages/ClassManager.tsx:173 | removing an index deletes exactly that slot and keeps the others in order; an index out of range changes nothing |
| ClassManager.RemoveAddedSlot | src/pages/ClassManager.tsx:172-173 | removing the slot just added gives the previous slots back |
| ClassManager.SetField | src/pages/ClassManager.tsx:175 | setting a field changes that field of the slot and no other |
| ClassManager.UpdateSlot | src/pages/ClassManager.tsx:174-176 | editing changes only the one field of the one slot |
| ClassManager.EditorSlots | src/pages/ClassManager.tsx:93-97 | the editor opens with the class's slots when it has a non-empty array, else with the single default slot |
| ClassManager.NewClassForm | src/pages/ClassManager.tsx:69-77 | a new class form has an empty name, level 중, grade 1 (one of that level's options) and one default slot |
| ClassManager.EditClassForm | src/pages/ClassManager.tsx:80-100 | the edit form carries the class's name, its target grade split into level and grade, and its editor slots |
| ClassManager.SaveClass | src/pages/ClassManager.tsx:103-110 | saving refuses exactly an empty name; otherwise it sends the name, the composed target grade and the slots |
| ClassManager.EditUnchangedKeepsClass | src/pages/ClassManager.tsx:80-110 | opening a named class and saving without changes stores the same name, target grade and (non-empty) slots |
| ClassManager.Without | src/pages/ClassManager.tsx:153 | deleting an id keeps every other id, keeps a duplicate-free list so, and changes nothing when the id is absent |
| ClassManager.Toggle | src/pages/ClassManager.tsx:151-156 | toggling flips the id's membership and no other id's, and keeps the selection duplicate-free |
| ClassManager.ToggleTwice | src/pages/ClassManager.tsx:151-156 | toggling twice restores the selection as a set, and exactly when the id was absent |
| ClassManager.WithoutAppended | src/pages/ClassManager.tsx:153-154 | deleting an id just added to the end gives the list back |
| ClassManager.EnrollmentRows | src/pages/ClassManager.tsx:162 | one row (class, student) per selected id, in selection order |
| ClassManager.EnrollmentRowsExact | src/pages/ClassManager.tsx:160-162 | a student gets a row iff selected, no row twice, every row for this class |
| ClassManager.ComposeGrade | src/pages/ClassManager.tsx:105 | the stored target grade is the school level followed by the grade, both recoverable from it |
| ClassManager.CompareForTarget | src/pages/ClassManager.tsx:306-316 | the result is -1, 0 or 1; an unassigned target-grade student, and a target-grade student, sort before a student without that property; 0 only for the same name |
| ClassManager.ComparatorIsKeyOrder | src/pages/ClassManager.tsx:306-316 | the comparator is the lexicographic order on (not (target and unassigned), not target, name) |
| ClassManager.ComparatorAntisymmetric | src/pages/ClassManager.tsx:306-316 | swapping the arguments negates the result, which is 0 exactly for same group and same name |
| ClassManager.RecommendedSortFirst | src/pages/ClassManager.tsx:317-326 | a student with the recommended badge sorts before every student outside the unassigned-target group |
| ClassManager.TickingClearsRecommendation | src/pages/ClassManager.tsx:317-326 | ticking a recommended student removes the badge, and unticking an unassigned target-grade student brings it back |
| Timetable.FirstSlotIndex | src/components/dashboard/WeeklySchedule.tsx:31 | `find` stops at the first slot on the day: no earlier slot is on it |
| Timetable.FirstSlotOn | src/components/dashboard/WeeklySchedule.tsx:52 | the lookup finds nothing iff no slot is on the day; what it finds is a slot on the day with no earlier slot on the day |
| Timetable.FirstSlotOnIsFirst | src/components/dashboard/WeeklySchedule.tsx:31-32 | any slot on the day with no earlier slot on the day is exactly the one `find` returns |
| WeeklySchedule.RenderedDays | src/components/dashboard/WeeklySchedule.tsx:22-23 | six columns are drawn and Sunday (일) is not among them |
| WeeklySchedule.MeetingOn | src/components/dashboard/WeeklySchedule.tsx:29 | the filter keeps exactly the classes with an array schedule holding a slot on the day, none more often than given |
| WeeklySchedule.Insert | src/components/dashboard/WeeklySchedule.tsx:30-34 | inserting into a sorted list keeps it sorted and adds exactly the one class |
| WeeklySchedule.SortByStart | src/components/dashboard/WeeklySchedule.tsx:30-34 | the sort returns a permutation ordered by the start time on the day |
| WeeklySchedule.ClassesForDay | src/components/dashboard/WeeklySchedule.tsx:27-35 | the day's list is a permutation of the filtered classes, exactly those meeting that day, ordered by start time |
| WeeklySchedule.StartOn | src/components/dashboard/WeeklySchedule.tsx:31-32 | the sort key is "" for a class not meeting on the day, and otherwise the start of its first slot on that day |
| WeeklySchedule.DisplayedSlot | src/components/dashboard/WeeklySchedule.tsx:52 | a slot is shown iff the class meets on the day, and it is the first of its slots on that day, starting at the sort key |
| WeeklySchedule.TwoMondaySlotsUseFirst | src/components/dashboard/WeeklySchedule.tsx:31-32 | a class meeting Monday at 10:00 and 14:00 is sorted and shown by its 10:00 slot |
| WeeklySchedule.DisplayedSlotIsSortKey | src/components/dashboard/WeeklySchedule.tsx:52-69 | each listed card shows a slot on that day whose start is the time the list is sorted by |
| WeeklySchedule.SundayOnlyNeverShown | src/components/dashboard/WeeklySchedule.tsx:89-90 | a class meeting only on Sunday appears in no rendered column |
| ClassEvaluation.OpenEvaluationForm | src/components/dashboard/ClassEvaluation.tsx:47-55 | the dialog opens present, homework 완료, empty topic, score and comment |
| ClassEvaluation.FinalScore | src/components/dashboard/ClassEvaluation.tsx:99 | absent or an empty field scores 0, otherwise the parsed field |
| ClassEvaluation.Save | src/components/dashboard/ClassEvaluation.tsx:85-111 | the attendance record carries the status; the report stores the topic as a one-element list, 해당없음 as homework and the marked comment when absent, the typed values otherwise |
| ClassEvaluation.StripAbsentMarker | src/components/dashboard/ClassEvaluation.tsx:101 | a comment has the absence marker iff it starts with it; stripping it leaves the rest |
| ClassEvaluation.AbsentCommentRoundTrip | src/components/dashboard/ClassEvaluation.tsx:101 | stripping the marker from an absent student's stored comment gives back the typed comment |
| ClassEvaluation.AbsentIgnoresScoreField | src/components/dashboard/ClassEvaluation.tsx:99 | for an absent student the typed score does not affect what is saved |
| ClassEvaluation.FreshFormSavesDefaults | src/components/dashboard/ClassEvaluation.tsx:47-111 | a fresh form with only a topic saves score 0, homework 완료 and an empty comment |
| Settings.Navigate | src/pages/Settings.tsx:103-248 | the menu cards open their forms; back and cancel on a form return to the menu; a form only ever stays or returns to the menu |
| Settings.EveryFormReturnsToMenu | src/pages/Settings.tsx:245-248 | every form is reachable from the menu and the back arrow returns it to the menu |
| Settings.LookupIsLastRow | src/pages/Settings.tsx:32-33 | building `settingsMap` finds a key iff some row has it, and keeps the value of its last row |
| Settings.LookupAppend | src/pages/Settings.tsx:33 | in rows `a` followed by rows `b`, a key that `b` has takes its value from `b`, any other key from `a` |
| Settings.DropKeys | src/pages/Settings.tsx:49 | removing the rows of the upserted keys leaves none of those keys and every other key as it was |
| Settings.Upsert | src/pages/Settings.tsx:49 | after the upsert a key reads its new value when the update has it, and its stored value otherwise |
| Settings.SavedInfoLoadsBack | src/pages/Settings.tsx:35-48 | after saving the academy information, loading the settings again shows the saved name and phone |
| Settings.SavedFeesLoadBack | src/pages/Settings.tsx:37-67 | after saving the fees, loading again shows each saved fee, or "0" for a fee saved empty |
| Settings.OrFallback | src/pages/Settings.tsx:35-39 | a missing or empty value gives the fallback, any other value itself |
| Settings.InitialState | src/pages/Settings.tsx:13-22 | the screen opens on the menu, without a back button and with empty password fields; loading an empty table then shows fee "0" |
| Settings.BackVisible | src/pages/Settings.tsx:245-249 | the back button shows exactly on the info, fees and security sections |
| Settings.Lookup | src/pages/Settings.tsx:32-33 | a key in the last row reads that row's value, and any value read is one stored under the key |
| Settings.LoadSettings | src/pages/Settings.tsx:29-41 | no data leaves the screen as it was; otherwise name and phone fall back to "" and the fees to "0", so no fee is empty |
| Settings.EmptySettingsLoadDefaults | src/pages/Settings.tsx:35-39 | with no stored settings the fees show "0" and name and phone are empty |
| Settings.SaveInfo | src/pages/Settings.tsx:43-57 | a successful save returns to the menu; an error leaves the screen unchanged |
| Settings.InfoUpdates | src/pages/Settings.tsx:45-48 | the info rows read back the academy name and phone under their keys |
| Settings.SaveFees | src/pages/Settings.tsx:59-76 | a declined confirmation or an error leaves the screen unchanged; success returns to the menu |
| Settings.FeeUpdates | src/pages/Settings.tsx:63-67 | the fee rows read back the three school-level fees under their keys |
| Settings.CheckPassword | src/pages/Settings.tsx:79-80 | shorter than 6 is refused before the entries are compared; accepted iff at least 6 and equal |
| Settings.ChangePassword | src/pages/Settings.tsx:78-94 | an accepted, confirmed, successful change clears both fields and returns to the menu, and no other outcome does both; the other settings never change |
| Settings.MismatchNeverChanges | src/pages/Settings.tsx:80 | a mismatched confirmation is never applied, whatever the answers |
| Report.ScoreColor | src/pages/Report.tsx:73-78 | indigo iff at least 90, blue iff 80 to 89, green iff 70 to 79, yellow iff below 70 |
| Report.ScoreColorMonotone | src/pages/Report.tsx:73-78 | a higher score never gets a lower band |
| Report.Highlighted | src/pages/Report.tsx:154 | the score is highlighted iff it is in the indigo or blue band, i.e. at least 80 |
| Report.HomeworkBadge | src/pages/Report.tsx:180-181 | green iff 완료, red iff 미제출, yellow for anything else |
| Report.AbsentReportBadge | src/pages/Report.tsx:180-181 | a report saved for an absent student shows the yellow badge |
| Report.ChartOrder | src/pages/Report.tsx:115 | the bars are the fetched reports reversed |
| Report.ChartIsOldestFirst | src/pages/Report.tsx:115 | reports fetched newest first are charted oldest first |
| Report.ChartOrderInvolution | src/pages/Report.tsx:115 | reversing twice gives the fetched order back |
| Text.IncludesChar | src/pages/PaymentManager.tsx:133-135 | `includes` of a one-character string holds iff the character occurs |
| Text.Compare | src/components/dashboard/WeeklySchedule.tsx:33 | the string comparison returns -1, 0 or 1, and 0 exactly for equal strings |
| Text.CompareFlip | src/pages/ClassManager.tsx:315 | swapping the strings negates the comparison |
| Text.LessEqTotal | src/components/dashboard/WeeklySchedule.tsx:33 | any two start times are ordered one way or the other |
| Text.LessEqTransitive | src/components/dashboard/WeeklySchedule.tsx:33 | the start-time order is transitive |
| Text.BeforeFirst | src/pages/StudentDetail.tsx:133 | `split('T')[0]` is a prefix free of 'T', followed by 'T' when there is one, and the whole string otherwise |

## Left out

- Database reads and writes, `alert`, the SMS link, `navigator.share`, the clipboard, routing and authentication are not modelled. A `confirm` answer and a backend error are boolean parameters.
- The current date is a parameter. Timezone effects of `new Date('YYYY-MM-DD')` (UTC) read through local getters, and the parsing of date strings, are not modelled. An invalid or non-date `enrollment_date` string is not modelled; null or empty is `None`.
- Billing.Student: `payment_day` is a natural number. A negative stored day would roll the deadline into the previous month through `Date` normalisation; that is not modelled.
- StudentDetail.RoundPercent: it rounds the exact ratio, halves up. `Math.round` on the floating-point value `attended / total * 100` can differ at exact .5 ties. The two averages (`toFixed(1)`) and the chart's x coordinate are floating point and are not modelled.
- `parseInt` (score field) is an uninterpreted function parameter. `JSON.parse` of stored topics on the report page is not modelled; the saved topic list is kept as a sequence.
- Text.Compare: `localeCompare` is modelled by code-point order. Locale collation is a different total order, and the proofs use only totality, antisymmetry and transitivity.
- WeeklySchedule.SortByStart: the browser's `Array.prototype.sort` algorithm is not modelled. The model is an insertion sort, and the contract states the permutation and the order, not which of several equally-timed classes comes first.
- The roster sort on the class manager and the student sort in the evaluation dialog are not modelled as sorts; for the roster only its comparator is.
- ClassManager.UpdateSlot: the source writes into the slot object it shares with the previous state, which is not modelled. The index is required to be in range, since the edit controls only exist for existing rows; an out-of-range index throws in the source.
- String lengths are counted in characters, not UTF-16 code units (this matters only for the 6-character password minimum with characters outside the BMP).
- Orderings delegated to the database (newest first, at most 5 reports; evaluations newest first) are preconditions or inputs, not modelled queries.
- Settings.Upsert: the backend's upsert is modelled as "drop the stored rows of the updated keys, then append the updates". The order in which the backend later returns the rows is not modelled.
- Saving the fee/due-day edit form (`handleUpdateInfo`) and the fee loading in `fetchData` are database writes and reads, not modelled.

## Findings

| source | as written | input that shows it | evidently intended | confidence | as-written member | corrected member |
|---|---|---|---|---|---|---|
| src/pages/PaymentManager.tsx:116-125 | the confirmation names the viewed month (`${month}월분`) but the inserted payment is dated today (line 122), and the paid flag looks for a payment dated in the viewed month | viewing January 2024 on 2024-03-05 and recording a payment: the payment settles March, January stays unpaid and its arrears stay | the payment settles the month on screen | medium, not executed | PaymentManager.RecordPaymentAsWritten, PaymentManager.RecordedPaymentMissesViewedMonth | PaymentManager.RecordPayment, PaymentManager.RecordPaymentMarksRowPaid |
