/** The arrears computation of the payment-management view: from the month a
    student enrolled through the month on screen, every month whose due date
    has arrived and in which the student has no payment adds the student's
    flat monthly tuition fee. */
module Billing {
  import opened Optional
  import opened Calendar

  /** The billing-relevant part of a student record. `enrollment` is `None`
      when the stored enrollment date is null or empty; `paymentDay` 0 means
      the nominal due day was never set. */
  datatype Student = Student(
    id: int,
    name: string,
    grade: string,
    tuitionFee: int,
    paymentDay: nat,
    enrollment: Option<Date>)

  /** One row of the payment ledger. The amount is recorded but never compared
      with the fee: any payment in a month settles that month. */
  datatype Payment = Payment(studentId: int, date: Date, amount: int)

  /** The nominal due day, with an unset day (0) read as the 1st. */
  function EffectiveDay(paymentDay: nat): (d: nat)
    ensures d >= 1
    ensures paymentDay == 0 ==> d == 1
    ensures paymentDay >= 1 ==> d == paymentDay
  {
    if paymentDay == 0 then 1 else paymentDay
  }

  /** The due day in month `ym`: the nominal day, pulled back to the month's
      last day when the month is shorter. */
  function DueDay(paymentDay: nat, ym: YearMonth): (d: int)
    requires ValidMonth(ym)
    ensures 1 <= d <= DaysInMonth(ym.year, ym.month)
    ensures d <= EffectiveDay(paymentDay)
    ensures d == EffectiveDay(paymentDay) || d == DaysInMonth(ym.year, ym.month)
  {
    var last := DaysInMonth(ym.year, ym.month);
    if EffectiveDay(paymentDay) < last then EffectiveDay(paymentDay) else last
  }

  /** The payment deadline of month `ym`: always a real date inside that month. */
  function DueDate(paymentDay: nat, ym: YearMonth): (d: Date)
    requires ValidMonth(ym)
    ensures ValidDate(d)
    ensures MonthOf(d) == ym
    ensures d.day == DueDay(paymentDay, ym)
  {
    Date(ym.year, ym.month, DueDay(paymentDay, ym))
  }

  /** Month `ym` counts once its deadline is not after `today`; the deadline
      day itself already counts. */
  predicate IsDue(paymentDay: nat, ym: YearMonth, today: Date)
    requires ValidMonth(ym)
  {
    NotAfter(DueDate(paymentDay, ym), today)
  }

  /** Payment `p` is by student `sid` and dated in month `ym`. */
  predicate PaysFor(p: Payment, sid: int, ym: YearMonth) {
    p.studentId == sid && MonthOf(p.date) == ym
  }

  /** Some ledger row settles month `ym` for student `sid`. */
  predicate Settled(ledger: seq<Payment>, sid: int, ym: YearMonth) {
    exists i :: 0 <= i < |ledger| && PaysFor(ledger[i], sid, ym)
  }

  /** Month number `k` is due and not settled. */
  predicate Owed(s: Student, ledger: seq<Payment>, k: int, today: Date) {
    IsDue(s.paymentDay, OfIndex(k), today) && !Settled(ledger, s.id, OfIndex(k))
  }

  /** The owed month numbers between `lo` and `hi`, both included. */
  function OwedBetween(s: Student, ledger: seq<Payment>, lo: int, hi: int, today: Date): set<int> {
    set k | lo <= k <= hi && Owed(s, ledger, k, today)
  }

  /** The month number of the student's enrollment month. */
  function StartIndex(s: Student): int
    requires s.enrollment.Some?
  {
    MonthIndex(MonthOf(s.enrollment.value))
  }

  /** The owed months from enrollment through the viewed month; none when
      there is no enrollment date. */
  function OwedMonths(s: Student, ledger: seq<Payment>, viewed: YearMonth, today: Date): set<int> {
    match s.enrollment
    case None => {}
    case Some(_) => OwedBetween(s, ledger, StartIndex(s), MonthIndex(viewed), today)
  }

  /** The arrears: the flat fee once for each owed month. */
  function Arrears(s: Student, ledger: seq<Payment>, viewed: YearMonth, today: Date): (r: int)
    ensures s.enrollment.None? ==> r == 0
    ensures s.tuitionFee == 0 ==> r == 0
    ensures s.tuitionFee >= 0 ==> r >= 0
    ensures s.enrollment.Some? && MonthIndex(viewed) < StartIndex(s) ==> r == 0
  {
    var owed := OwedMonths(s, ledger, viewed, today);
    ArrearsFacts(s, ledger, viewed, today);
    s.tuitionFee * |owed|
  }

  lemma ArrearsFacts(s: Student, ledger: seq<Payment>, viewed: YearMonth, today: Date)
    ensures s.tuitionFee >= 0 ==> s.tuitionFee * |OwedMonths(s, ledger, viewed, today)| >= 0
    ensures s.enrollment.Some? && MonthIndex(viewed) < StartIndex(s) ==> OwedMonths(s, ledger, viewed, today) == {}
  {
    if s.enrollment.Some? && MonthIndex(viewed) < StartIndex(s) {
      EmptyRange(s, ledger, StartIndex(s), MonthIndex(viewed), today);
    }
  }

  /** Extending the range by one month adds that month exactly when it is owed. */
  lemma OwedBetweenExtend(s: Student, ledger: seq<Payment>, lo: int, hi: int, today: Date)
    requires lo <= hi
    ensures hi !in OwedBetween(s, ledger, lo, hi - 1, today)
    ensures OwedBetween(s, ledger, lo, hi, today)
         == OwedBetween(s, ledger, lo, hi - 1, today) + (if Owed(s, ledger, hi, today) then {hi} else {})
    ensures |OwedBetween(s, ledger, lo, hi, today)|
         == |OwedBetween(s, ledger, lo, hi - 1, today)| + (if Owed(s, ledger, hi, today) then 1 else 0)
  {
    var before := OwedBetween(s, ledger, lo, hi - 1, today);
    var after := OwedBetween(s, ledger, lo, hi, today);
    assert after == before + (if Owed(s, ledger, hi, today) then {hi} else {});
  }

  /** One more owed month adds one more fee. */
  lemma FeeStep(fee: int, n: nat)
    ensures fee * (n + 1) == fee * n + fee
  {
  }

  /** The ledger scan of one month (`allPayments.some(...)`). */
  method AnyPaymentIn(ledger: seq<Payment>, sid: int, ym: YearMonth) returns (found: bool)
    ensures found <==> Settled(ledger, sid, ym)
  {
    found := false;
    var i := 0;
    while i < |ledger| && !found
      invariant 0 <= i <= |ledger|
      invariant found <==> exists j :: 0 <= j < i && PaysFor(ledger[j], sid, ym)
    {
      found := PaysFor(ledger[i], sid, ym);
      i := i + 1;
    }
  }

  /** One pass of the loop body of `calculateTotalUnpaid`: nothing for a
      month whose deadline is after today, otherwise the fee unless the
      ledger has a payment for that month. */
  method MonthCharge(s: Student, ledger: seq<Payment>, k: int, today: Date) returns (charge: int)
    ensures charge == if Owed(s, ledger, k, today) then s.tuitionFee else 0
  {
    var ym := OfIndex(k);
    if Before(today, DueDate(s.paymentDay, ym)) {
      return 0;
    }
    var isPaid := AnyPaymentIn(ledger, s.id, ym);
    charge := if isPaid then 0 else s.tuitionFee;
  }

  /** `calculateTotalUnpaid`: walk month by month from the enrollment month to
      the viewed month, adding each month's charge. */
  method CalculateTotalUnpaid(s: Student, ledger: seq<Payment>, viewed: YearMonth, today: Date)
    returns (unpaid: int)
    ensures unpaid == Arrears(s, ledger, viewed, today)
  {
    if s.enrollment.None? {
      return 0;
    }
    var start := StartIndex(s);
    var last := MonthIndex(viewed);
    unpaid := 0;
    var k := start;
    EmptyRange(s, ledger, start, start - 1, today);
    while k <= last
      invariant start <= k
      invariant k <= last + 1 || k == start
      invariant unpaid == s.tuitionFee * |OwedBetween(s, ledger, start, k - 1, today)|
      decreases last - k
    {
      var charge := MonthCharge(s, ledger, k, today);
      ChargeStep(s, ledger, start, k, today, unpaid, charge);
      unpaid := unpaid + charge;
      k := k + 1;
    }
    if k == start {
      EmptyRange(s, ledger, start, last, today);
    }
  }

  /** Adding month `k`'s charge to the running total for the months before it
      gives the total through month `k`. */
  lemma ChargeStep(s: Student, ledger: seq<Payment>, lo: int, k: int, today: Date, total: int, charge: int)
    requires lo <= k
    requires total == s.tuitionFee * |OwedBetween(s, ledger, lo, k - 1, today)|
    requires charge == if Owed(s, ledger, k, today) then s.tuitionFee else 0
    ensures total + charge == s.tuitionFee * |OwedBetween(s, ledger, lo, k, today)|
  {
    OwedBetweenExtend(s, ledger, lo, k, today);
    FeeStep(s.tuitionFee, |OwedBetween(s, ledger, lo, k - 1, today)|);
  }

  /** An empty range of months owes nothing. */
  lemma EmptyRange(s: Student, ledger: seq<Payment>, lo: int, hi: int, today: Date)
    requires hi < lo
    ensures OwedBetween(s, ledger, lo, hi, today) == {}
  {
  }
}
