/** The payment-management screen around the arrears computation: month
    navigation, the paid flag of the viewed month, the summary figures, the
    default fee by school level and the fee/due-day edit form. */
module PaymentManager {
  import opened Optional
  import opened Text
  import opened Calendar
  import opened Billing

  // ---------------------------------------------------------------- navigation

  /** `moveMonth(offset)`: the month `offset` months away, carrying into the
      year as `new Date(year, month - 1 + offset, 1)` does. */
  function MoveMonth(ym: YearMonth, offset: int): (r: YearMonth)
    ensures ValidMonth(r)
    ensures MonthIndex(r) == MonthIndex(ym) + offset
  {
    OfIndex(MonthIndex(ym) + offset)
  }

  /** Moving forward and then back by the same amount returns to the month. */
  lemma MoveMonthRoundTrip(ym: YearMonth, offset: int)
    requires ValidMonth(ym)
    ensures MoveMonth(MoveMonth(ym, offset), -offset) == ym
  {
    IndexRoundTrip(ym);
  }

  /** The next month of December is January of the following year, and the
      month before January is December of the previous year. */
  lemma MoveMonthCarriesYear(y: int)
    ensures MoveMonth(YearMonth(y, 12), 1) == YearMonth(y + 1, 1)
    ensures MoveMonth(YearMonth(y, 1), -1) == YearMonth(y - 1, 12)
  {
    IndexRoundTrip(YearMonth(y + 1, 1));
    IndexRoundTrip(YearMonth(y - 1, 12));
  }

  /** Inside a year, the next month keeps the year. */
  lemma MoveMonthWithinYear(ym: YearMonth)
    requires 1 <= ym.month < 12
    ensures MoveMonth(ym, 1) == YearMonth(ym.year, ym.month + 1)
  {
    IndexRoundTrip(YearMonth(ym.year, ym.month + 1));
  }

  // ------------------------------------------------------- the viewed month

  /** The position of the first payment by `sid` dated in `ym`, or the ledger
      length when there is none. */
  function FirstPaymentIndex(ledger: seq<Payment>, sid: int, ym: YearMonth): (i: nat)
    ensures i <= |ledger|
    ensures forall j :: 0 <= j < i ==> !PaysFor(ledger[j], sid, ym)
    ensures i < |ledger| ==> PaysFor(ledger[i], sid, ym)
  {
    if |ledger| == 0 then 0
    else if PaysFor(ledger[0], sid, ym) then 0
    else 1 + FirstPaymentIndex(ledger[1..], sid, ym)
  }

  /** `allPayments.find(...)`: the first payment by `sid` dated in `ym`. */
  function FindMonthPayment(ledger: seq<Payment>, sid: int, ym: YearMonth): (r: Option<Payment>)
    ensures r.None? <==> !Settled(ledger, sid, ym)
    ensures r.Some? ==> r.value in ledger && PaysFor(r.value, sid, ym)
  {
    var i := FirstPaymentIndex(ledger, sid, ym);
    if i < |ledger| then Some(ledger[i]) else None
  }

  /** One row of the table: the student, the viewed month's paid flag and
      paid date, and the cumulative arrears. */
  datatype Row = Row(student: Student, isPaid: bool, paidDate: Option<Date>, totalUnpaid: int)

  function MakeRow(s: Student, ledger: seq<Payment>, viewed: YearMonth, today: Date): (r: Row)
    ensures r.student == s
    ensures r.isPaid <==> Settled(ledger, s.id, viewed)
    ensures r.paidDate.Some? <==> r.isPaid
    ensures r.paidDate.Some? ==> MonthOf(r.paidDate.value) == viewed
    ensures r.totalUnpaid == Arrears(s, ledger, viewed, today)
  {
    var found := FindMonthPayment(ledger, s.id, viewed);
    Row(s, found.Some?, if found.Some? then Some(found.value.date) else None,
        Arrears(s, ledger, viewed, today))
  }

  /** `processedData`: the students whose name contains the search term, in
      order, each turned into a row. */
  function ProcessedRows(students: seq<Student>, ledger: seq<Payment>, search: string,
                         viewed: YearMonth, today: Date): (rows: seq<Row>)
    ensures |rows| <= |students|
    ensures forall r :: r in rows ==> r == MakeRow(r.student, ledger, viewed, today)
    ensures forall r :: r in rows ==> r.student in students && Includes(r.student.name, search)
    ensures forall s :: s in students && Includes(s.name, search) ==> MakeRow(s, ledger, viewed, today) in rows
    ensures |students| == 1 ==> rows == if Includes(students[0].name, search)
                                         then [MakeRow(students[0], ledger, viewed, today)] else []
  {
    if |students| == 0 then []
    else
      var rest := ProcessedRows(students[1..], ledger, search, viewed, today);
      assert forall s :: s in students[1..] ==> s in students;
      assert forall s :: s in students ==> s == students[0] || s in students[1..];
      if Includes(students[0].name, search) then [MakeRow(students[0], ledger, viewed, today)] + rest
      else rest
  }

  /** The filter keeps the students' order and never repeats a row: the rows
      of consecutive runs of students, joined, are the rows of the whole. */
  lemma {:induction false} ProcessedRowsAppend(a: seq<Student>, b: seq<Student>, ledger: seq<Payment>,
                                               search: string, viewed: YearMonth, today: Date)
    ensures ProcessedRows(a + b, ledger, search, viewed, today)
         == ProcessedRows(a, ledger, search, viewed, today) + ProcessedRows(b, ledger, search, viewed, today)
  {
    if |a| == 0 {
      assert a + b == b;
    } else {
      assert (a + b)[0] == a[0];
      assert (a + b)[1..] == a[1..] + b;
      ProcessedRowsAppend(a[1..], b, ledger, search, viewed, today);
    }
  }

  /** The rows whose viewed month is paid, in order. */
  function PaidRows(rows: seq<Row>): (r: seq<Row>)
    ensures forall x :: x in r <==> x in rows && x.isPaid
    ensures |rows| == 1 ==> r == if rows[0].isPaid then rows else []
  {
    if |rows| == 0 then []
    else
      assert forall x :: x in rows <==> x == rows[0] || x in rows[1..];
      (if rows[0].isPaid then [rows[0]] else []) + PaidRows(rows[1..])
  }

  /** The paid-rows filter keeps order. */
  lemma {:induction false} PaidRowsAppend(a: seq<Row>, b: seq<Row>)
    ensures PaidRows(a + b) == PaidRows(a) + PaidRows(b)
  {
    if |a| == 0 {
      assert a + b == b;
    } else {
      var head := if a[0].isPaid then [a[0]] else [];
      calc {
        PaidRows(a + b);
        { assert (a + b)[0] == a[0]; assert (a + b)[1..] == a[1..] + b; }
        head + PaidRows(a[1..] + b);
        { PaidRowsAppend(a[1..], b); }
        head + (PaidRows(a[1..]) + PaidRows(b));
        { assert head + (PaidRows(a[1..]) + PaidRows(b)) == (head + PaidRows(a[1..])) + PaidRows(b); }
        (head + PaidRows(a[1..])) + PaidRows(b);
        { assert PaidRows(a) == head + PaidRows(a[1..]); }
        PaidRows(a) + PaidRows(b);
      }
    }
  }

  /** When every row is paid the filter keeps them all. */
  lemma {:induction false} AllPaidKeepsEveryRow(rows: seq<Row>)
    requires forall x :: x in rows ==> x.isPaid
    ensures PaidRows(rows) == rows
  {
    if |rows| > 0 {
      assert forall x :: x in rows[1..] ==> x in rows;
      AllPaidKeepsEveryRow(rows[1..]);
      assert rows == [rows[0]] + rows[1..];
    }
  }

  /** The total of the rows' fees (the `reduce` of `totalAmount`). */
  function SumFees(rows: seq<Row>): (total: int)
    ensures |rows| == 1 ==> total == rows[0].student.tuitionFee
    ensures (forall r :: r in rows ==> r.student.tuitionFee >= 0) ==> total >= 0
  {
    if |rows| == 0 then 0
    else
      assert forall r :: r in rows[1..] ==> r in rows;
      rows[0].student.tuitionFee + SumFees(rows[1..])
  }

  /** The fee sum of joined lists is the sum of the parts' sums. */
  lemma {:induction false} SumFeesAppend(a: seq<Row>, b: seq<Row>)
    ensures SumFees(a + b) == SumFees(a) + SumFees(b)
  {
    if |a| == 0 {
      assert a + b == b;
    } else {
      assert (a + b)[0] == a[0];
      assert (a + b)[1..] == a[1..] + b;
      SumFeesAppend(a[1..], b);
    }
  }

  /** `totalAmount`: the fees of the paid rows added up; nothing when no row
      is paid, every fee when all are, and a single row's fee exactly when it
      is paid. */
  function TotalAmount(rows: seq<Row>): (total: int)
    ensures |rows| == 1 ==> total == if rows[0].isPaid then rows[0].student.tuitionFee else 0
    ensures (forall r :: r in rows ==> !r.isPaid) ==> total == 0
    ensures (forall r :: r in rows ==> r.isPaid) ==> total == SumFees(rows)
  {
    var paid := PaidRows(rows);
    if forall r :: r in rows ==> r.isPaid then
      AllPaidKeepsEveryRow(rows);
      SumFees(paid)
    else
      SumFees(paid)
  }

  /** The collected total of joined lists is the sum of the parts' totals;
      with the one-row value this fixes the total of every list. */
  lemma TotalAmountAppend(a: seq<Row>, b: seq<Row>)
    ensures TotalAmount(a + b) == TotalAmount(a) + TotalAmount(b)
  {
    PaidRowsAppend(a, b);
    SumFeesAppend(PaidRows(a), PaidRows(b));
  }

  /** `unpaidCount`: how many rows are not paid for the viewed month. */
  function UnpaidCount(rows: seq<Row>): (n: nat)
    ensures n <= |rows|
    ensures n == 0 <==> forall r :: r in rows ==> r.isPaid
    ensures n == |rows| <==> forall r :: r in rows ==> !r.isPaid
  {
    if |rows| == 0 then 0
    else
      assert forall r :: r in rows <==> r == rows[0] || r in rows[1..];
      (if rows[0].isPaid then 0 else 1) + UnpaidCount(rows[1..])
  }

  /** Every row is counted exactly once, as paid or as unpaid. */
  lemma {:induction false} PaidAndUnpaidPartitionRows(rows: seq<Row>)
    ensures |PaidRows(rows)| + UnpaidCount(rows) == |rows|
  {
    if |rows| > 0 {
      PaidAndUnpaidPartitionRows(rows[1..]);
    }
  }

  /** With fees that are not negative, the collected total lies between zero
      and the fees of all rows; it is zero when no row is paid and the full
      sum when every row is. */
  lemma {:induction false} TotalAmountBounds(rows: seq<Row>)
    requires forall r :: r in rows ==> r.student.tuitionFee >= 0
    ensures 0 <= TotalAmount(rows) <= SumFees(rows)
    ensures (forall r :: r in rows ==> !r.isPaid) ==> TotalAmount(rows) == 0
    ensures (forall r :: r in rows ==> r.isPaid) ==> TotalAmount(rows) == SumFees(rows)
  {
    if |rows| > 0 {
      assert forall r :: r in rows[1..] ==> r in rows;
      TotalAmountBounds(rows[1..]);
      var tail := PaidRows(rows[1..]);
      if rows[0].isPaid {
        assert ([rows[0]] + tail)[1..] == tail;
        assert PaidRows(rows) == [rows[0]] + tail;
      } else {
        assert PaidRows(rows) == tail;
      }
    }
  }

  // ------------------------------------------------------------ default fees

  /** The default monthly fees configured per school level. */
  datatype DefaultFees = DefaultFees(elementary: int, middle: int, high: int)

  /** `getStandardFee`: the default fee of the first school level the grade
      label mentions, checking 초 (elementary), then 중 (middle), then 고
      (high); 0 when it mentions none. */
  function StandardFee(grade: string, fees: DefaultFees): (r: int)
    ensures r == fees.elementary || r == fees.middle || r == fees.high || r == 0
    ensures '초' in grade ==> r == fees.elementary
    ensures '초' !in grade && '중' in grade ==> r == fees.middle
    ensures '초' !in grade && '중' !in grade && '고' in grade ==> r == fees.high
    ensures '초' !in grade && '중' !in grade && '고' !in grade ==> r == 0
  {
    IncludesChar(grade, '초');
    IncludesChar(grade, '중');
    IncludesChar(grade, '고');
    if Includes(grade, "초") then fees.elementary
    else if Includes(grade, "중") then fees.middle
    else if Includes(grade, "고") then fees.high
    else 0
  }

  /** A grade written as a school-level character followed by digits, as in
      "중2", gets that level's default fee, and 0 for any other first character. */
  lemma StandardFeeOfLevelGrade(level: char, digits: string, fees: DefaultFees)
    requires forall i :: 0 <= i < |digits| ==> '0' <= digits[i] <= '9'
    ensures level == '초' ==> StandardFee([level] + digits, fees) == fees.elementary
    ensures level == '중' ==> StandardFee([level] + digits, fees) == fees.middle
    ensures level == '고' ==> StandardFee([level] + digits, fees) == fees.high
    ensures level != '초' && level != '중' && level != '고' ==> StandardFee([level] + digits, fees) == 0
  {
    var g := [level] + digits;
    assert forall c :: c in g ==> c == level || c in digits;
    assert '초' !in digits && '중' !in digits && '고' !in digits;
  }

  /** The fee/due-day edit form (`editForm`). */
  datatype EditForm = EditForm(fee: int, day: nat)

  /** `openEditModal`: an unset fee (0) is prefilled with the standard fee of
      the student's grade, and an unset due day (0) with the 1st. */
  function OpenEditForm(s: Student, fees: DefaultFees): (f: EditForm)
    ensures f.day >= 1
    ensures s.paymentDay == 0 ==> f.day == 1
    ensures s.paymentDay >= 1 ==> f.day == s.paymentDay
    ensures s.tuitionFee != 0 ==> f.fee == s.tuitionFee
    ensures s.tuitionFee == 0 ==> f.fee == StandardFee(s.grade, fees)
  {
    var fee := if s.tuitionFee == 0 then StandardFee(s.grade, fees) else s.tuitionFee;
    EditForm(fee, EffectiveDay(s.paymentDay))
  }

  /** Saving the edit form's prefilled day moves no due date: the form shows
      the day the arrears computation already uses. */
  lemma EditFormKeepsDueDates(s: Student, fees: DefaultFees, ym: YearMonth)
    requires ValidMonth(ym)
    ensures DueDay(OpenEditForm(s, fees).day, ym) == DueDay(s.paymentDay, ym)
  {
  }

  // ------------------------------------------------------- recording a payment

  /** `handlePayment` as written: the new payment is dated today, whatever
      month is on screen. */
  function RecordPaymentAsWritten(ledger: seq<Payment>, s: Student, today: Date): (r: seq<Payment>)
    ensures |r| == |ledger| + 1 && r[..|ledger|] == ledger
    ensures Settled(r, s.id, MonthOf(today))
  {
    var r := ledger + [Payment(s.id, today, s.tuitionFee)];
    assert PaysFor(r[|ledger|], s.id, MonthOf(today));
    r
  }

  /** Paying for January 2024 while viewing it on 2024-03-05 leaves January
      unpaid: the payment lands in March. */
  lemma RecordedPaymentMissesViewedMonth()
    ensures !Settled(RecordPaymentAsWritten([], Student(1, "Kim", "중1", 300000, 5, Some(Date(2023, 12, 5))),
                                            Date(2024, 3, 5)),
                     1, YearMonth(2024, 1))
  {
    var r := RecordPaymentAsWritten([], Student(1, "Kim", "중1", 300000, 5, Some(Date(2023, 12, 5))),
                                    Date(2024, 3, 5));
    assert |r| == 1 && r[0].date == Date(2024, 3, 5);
  }

  /** The date for a payment of the viewed month: today when today lies in
      that month, otherwise the 1st of the viewed month. */
  function PaymentDateFor(viewed: YearMonth, today: Date): (d: Date)
    requires ValidMonth(viewed)
    ensures ValidDate(today) ==> ValidDate(d)
    ensures MonthOf(d) == viewed
    ensures MonthOf(today) == viewed ==> d == today
  {
    if MonthOf(today) == viewed then today else Date(viewed.year, viewed.month, 1)
  }

  /** `handlePayment` as evidently intended: the payment settles the month
      the confirmation names, and the ledger is otherwise kept. */
  function RecordPayment(ledger: seq<Payment>, s: Student, viewed: YearMonth, today: Date): (r: seq<Payment>)
    requires ValidMonth(viewed)
    ensures |r| == |ledger| + 1 && r[..|ledger|] == ledger
    ensures r[|ledger|].studentId == s.id && r[|ledger|].amount == s.tuitionFee
    ensures Settled(r, s.id, viewed)
  {
    var r := ledger + [Payment(s.id, PaymentDateFor(viewed, today), s.tuitionFee)];
    assert PaysFor(r[|ledger|], s.id, viewed);
    r
  }

  /** After recording, the student's row for the viewed month shows paid and
      the viewed month is no longer owed. */
  lemma RecordPaymentMarksRowPaid(ledger: seq<Payment>, s: Student, viewed: YearMonth, today: Date)
    requires ValidMonth(viewed)
    ensures MakeRow(s, RecordPayment(ledger, s, viewed, today), viewed, today).isPaid
    ensures MonthIndex(viewed) !in OwedMonths(s, RecordPayment(ledger, s, viewed, today), viewed, today)
  {
    IndexRoundTrip(viewed);
  }
}
