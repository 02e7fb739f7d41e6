/** Properties of the arrears computation: what can and cannot change the
    amount owed, and worked examples of the due-date rule. */
module BillingLaws {
  import opened Optional
  import opened Calendar
  import opened Billing

  /** A fee that is not negative scales a larger count to a larger amount. */
  lemma ScaleMonotone(fee: int, a: nat, b: nat)
    requires fee >= 0 && a <= b
    ensures fee * a <= fee * b
  {
  }

  lemma SubsetCard(a: set<int>, b: set<int>)
    requires a <= b
    ensures |a| <= |b|
  {
    assert b == a + (b - a);
  }

  /** The only payment that matters besides the old ledger is the new one. */
  lemma SettledAppend(ledger: seq<Payment>, p: Payment, sid: int, ym: YearMonth)
    ensures Settled(ledger + [p], sid, ym) <==> Settled(ledger, sid, ym) || PaysFor(p, sid, ym)
  {
    var l := ledger + [p];
    if Settled(ledger, sid, ym) {
      var i :| 0 <= i < |ledger| && PaysFor(ledger[i], sid, ym);
      assert l[i] == ledger[i];
    }
    if PaysFor(p, sid, ym) {
      assert l[|ledger|] == p;
    }
    if Settled(l, sid, ym) {
      var i :| 0 <= i < |l| && PaysFor(l[i], sid, ym);
      if i < |ledger| {
        assert ledger[i] == l[i];
      }
    }
  }

  /** Two ledgers that settle the same months of the window leave the same
      months owed. */
  lemma SameSettlementSameOwed(s: Student, l1: seq<Payment>, l2: seq<Payment>, viewed: YearMonth, today: Date)
    requires s.enrollment.Some?
    requires forall k :: StartIndex(s) <= k <= MonthIndex(viewed) ==>
               (Settled(l1, s.id, OfIndex(k)) <==> Settled(l2, s.id, OfIndex(k)))
    ensures OwedMonths(s, l1, viewed, today) == OwedMonths(s, l2, viewed, today)
  {
  }

  /** Moving "today" later never lowers the arrears: more months become due,
      none stops being due. */
  lemma ArrearsMonotoneInToday(s: Student, ledger: seq<Payment>, viewed: YearMonth, t1: Date, t2: Date)
    requires NotAfter(t1, t2)
    requires s.tuitionFee >= 0
    ensures Arrears(s, ledger, viewed, t1) <= Arrears(s, ledger, viewed, t2)
  {
    var o1 := OwedMonths(s, ledger, viewed, t1);
    var o2 := OwedMonths(s, ledger, viewed, t2);
    forall k | k in o1
      ensures k in o2
    {
      NotAfterTransitive(DueDate(s.paymentDay, OfIndex(k)), t1, t2);
    }
    SubsetCard(o1, o2);
    ScaleMonotone(s.tuitionFee, |o1|, |o2|);
  }

  /** A ledger holding every payment of another settles every month the other
      settles. */
  lemma SettledGrows(ledger: seq<Payment>, more: seq<Payment>, sid: int, ym: YearMonth)
    requires forall p :: p in ledger ==> p in more
    requires Settled(ledger, sid, ym)
    ensures Settled(more, sid, ym)
  {
    var i :| 0 <= i < |ledger| && PaysFor(ledger[i], sid, ym);
    assert ledger[i] in more;
    var j :| 0 <= j < |more| && more[j] == ledger[i];
  }

  /** Recording payments, anywhere in the ledger, never raises the arrears. */
  lemma PaymentsNeverRaiseArrears(s: Student, ledger: seq<Payment>, more: seq<Payment>, viewed: YearMonth, today: Date)
    requires forall p :: p in ledger ==> p in more
    requires s.tuitionFee >= 0
    ensures Arrears(s, more, viewed, today) <= Arrears(s, ledger, viewed, today)
  {
    var o1 := OwedMonths(s, ledger, viewed, today);
    var o2 := OwedMonths(s, more, viewed, today);
    forall k | k in o2
      ensures k in o1
    {
      if Settled(ledger, s.id, OfIndex(k)) {
        SettledGrows(ledger, more, s.id, OfIndex(k));
      }
    }
    SubsetCard(o2, o1);
    ScaleMonotone(s.tuitionFee, |o2|, |o1|);
  }

  /** The order of the ledger is irrelevant: ledgers with the same payments
      give the same arrears, whatever the fee. */
  lemma LedgerOrderIrrelevant(s: Student, l1: seq<Payment>, l2: seq<Payment>, viewed: YearMonth, today: Date)
    requires forall p :: p in l1 <==> p in l2
    ensures Arrears(s, l1, viewed, today) == Arrears(s, l2, viewed, today)
  {
    if s.enrollment.Some? {
      forall k | StartIndex(s) <= k <= MonthIndex(viewed)
        ensures Settled(l1, s.id, OfIndex(k)) <==> Settled(l2, s.id, OfIndex(k))
      {
        if Settled(l1, s.id, OfIndex(k)) {
          SettledGrows(l1, l2, s.id, OfIndex(k));
        }
        if Settled(l2, s.id, OfIndex(k)) {
          SettledGrows(l2, l1, s.id, OfIndex(k));
        }
      }
      SameSettlementSameOwed(s, l1, l2, viewed, today);
    }
  }

  /** Payments of other students do not touch this student's arrears. */
  lemma OtherStudentsPaymentIgnored(s: Student, ledger: seq<Payment>, p: Payment, viewed: YearMonth, today: Date)
    requires p.studentId != s.id
    ensures Arrears(s, ledger + [p], viewed, today) == Arrears(s, ledger, viewed, today)
  {
    if s.enrollment.Some? {
      forall k | StartIndex(s) <= k <= MonthIndex(viewed)
        ensures Settled(ledger + [p], s.id, OfIndex(k)) <==> Settled(ledger, s.id, OfIndex(k))
      {
        SettledAppend(ledger, p, s.id, OfIndex(k));
      }
      SameSettlementSameOwed(s, ledger + [p], ledger, viewed, today);
    }
  }

  /** A payment dated before the enrollment month or after the viewed month
      does not touch the arrears. */
  lemma OutOfWindowPaymentIgnored(s: Student, ledger: seq<Payment>, p: Payment, viewed: YearMonth, today: Date)
    requires s.enrollment.Some?
    requires MonthIndex(MonthOf(p.date)) < StartIndex(s) || MonthIndex(viewed) < MonthIndex(MonthOf(p.date))
    ensures Arrears(s, ledger + [p], viewed, today) == Arrears(s, ledger, viewed, today)
  {
    forall k | StartIndex(s) <= k <= MonthIndex(viewed)
      ensures Settled(ledger + [p], s.id, OfIndex(k)) <==> Settled(ledger, s.id, OfIndex(k))
    {
      SettledAppend(ledger, p, s.id, OfIndex(k));
    }
    SameSettlementSameOwed(s, ledger + [p], ledger, viewed, today);
  }

  /** A second payment in a month that is already settled changes nothing. */
  lemma SecondPaymentInMonthIgnored(s: Student, ledger: seq<Payment>, p: Payment, viewed: YearMonth, today: Date)
    requires Settled(ledger, p.studentId, MonthOf(p.date))
    ensures Arrears(s, ledger + [p], viewed, today) == Arrears(s, ledger, viewed, today)
  {
    if s.enrollment.Some? {
      forall k | StartIndex(s) <= k <= MonthIndex(viewed)
        ensures Settled(ledger + [p], s.id, OfIndex(k)) <==> Settled(ledger, s.id, OfIndex(k))
      {
        SettledAppend(ledger, p, s.id, OfIndex(k));
      }
      SameSettlementSameOwed(s, ledger + [p], ledger, viewed, today);
    }
  }

  /** A settled viewed month is never among the owed months. */
  lemma SettledViewedMonthNotOwed(s: Student, ledger: seq<Payment>, viewed: YearMonth, today: Date)
    requires ValidMonth(viewed)
    requires Settled(ledger, s.id, viewed)
    ensures MonthIndex(viewed) !in OwedMonths(s, ledger, viewed, today)
  {
    IndexRoundTrip(viewed);
  }

  /** Months after today's month are never due, so viewing a later month
      shows the same arrears as viewing today's month. */
  lemma ArrearsStopAtToday(s: Student, ledger: seq<Payment>, viewed: YearMonth, today: Date)
    requires ValidDate(today)
    requires MonthIndex(MonthOf(today)) <= MonthIndex(viewed)
    ensures Arrears(s, ledger, viewed, today) == Arrears(s, ledger, MonthOf(today), today)
  {
    if s.enrollment.Some? {
      var t := MonthIndex(MonthOf(today));
      forall k | t < k
        ensures !IsDue(s.paymentDay, OfIndex(k), today)
      {
        IndexOrderIsDateOrder(today, DueDate(s.paymentDay, OfIndex(k)));
      }
      assert OwedMonths(s, ledger, viewed, today) == OwedMonths(s, ledger, MonthOf(today), today);
    }
  }

  /** Within its own month, a month becomes due exactly on its due day. */
  lemma DueFromTheDueDay(paymentDay: nat, ym: YearMonth, today: Date)
    requires ValidMonth(ym) && MonthOf(today) == ym
    ensures IsDue(paymentDay, ym, today) <==> DueDay(paymentDay, ym) <= today.day
  {
  }

  /** A due day of 31 falls on the 29th of February in a leap year and on the
      28th otherwise. */
  lemma FebruaryDueDay(y: int)
    ensures DueDay(31, YearMonth(y, 2)) == (if IsLeapYear(y) then 29 else 28)
  {
  }

  /** Enrolled 2024-01-10, fee 300000, due on the 15th, no payments, today
      2024-03-20, viewing March 2024: January, February and March are owed. */
  lemma ScenarioNoPayments()
    ensures Arrears(Student(1, "Kim", "중1", 300000, 15, Some(Date(2024, 1, 10))), [],
                    YearMonth(2024, 3), Date(2024, 3, 20)) == 900000
  {
    var s := Student(1, "Kim", "중1", 300000, 15, Some(Date(2024, 1, 10)));
    var today := Date(2024, 3, 20);
    var owed := OwedMonths(s, [], YearMonth(2024, 3), today);
    assert OfIndex(24288) == YearMonth(2024, 1);
    assert OfIndex(24289) == YearMonth(2024, 2);
    assert OfIndex(24290) == YearMonth(2024, 3);
    assert Owed(s, [], 24288, today) && Owed(s, [], 24289, today) && Owed(s, [], 24290, today);
    EmptyRange(s, [], 24288, 24287, today);
    OwedBetweenExtend(s, [], 24288, 24288, today);
    OwedBetweenExtend(s, [], 24288, 24289, today);
    OwedBetweenExtend(s, [], 24288, 24290, today);
    assert |owed| == 3;
  }

  /** The same student with one payment dated 2024-02-12: February is settled. */
  lemma ScenarioFebruaryPaid()
    ensures Arrears(Student(1, "Kim", "중1", 300000, 15, Some(Date(2024, 1, 10))),
                    [Payment(1, Date(2024, 2, 12), 300000)],
                    YearMonth(2024, 3), Date(2024, 3, 20)) == 600000
  {
    var s := Student(1, "Kim", "중1", 300000, 15, Some(Date(2024, 1, 10)));
    var ledger := [Payment(1, Date(2024, 2, 12), 300000)];
    var today := Date(2024, 3, 20);
    var owed := OwedMonths(s, ledger, YearMonth(2024, 3), today);
    assert OfIndex(24288) == YearMonth(2024, 1);
    assert OfIndex(24289) == YearMonth(2024, 2);
    assert OfIndex(24290) == YearMonth(2024, 3);
    assert PaysFor(ledger[0], 1, YearMonth(2024, 2));
    assert Owed(s, ledger, 24288, today) && !Owed(s, ledger, 24289, today) && Owed(s, ledger, 24290, today);
    EmptyRange(s, ledger, 24288, 24287, today);
    OwedBetweenExtend(s, ledger, 24288, 24288, today);
    OwedBetweenExtend(s, ledger, 24288, 24289, today);
    OwedBetweenExtend(s, ledger, 24288, 24290, today);
    assert |owed| == 2;
  }

  /** Enrolled 2024-01-10 with the 15th as due day, today 2024-01-12: January
      is not due yet. */
  lemma ScenarioNotYetDue()
    ensures Arrears(Student(1, "Kim", "중1", 300000, 15, Some(Date(2024, 1, 10))), [],
                    YearMonth(2024, 1), Date(2024, 1, 12)) == 0
  {
    var s := Student(1, "Kim", "중1", 300000, 15, Some(Date(2024, 1, 10)));
    var today := Date(2024, 1, 12);
    assert OfIndex(24288) == YearMonth(2024, 1);
    assert !Owed(s, [], 24288, today);
    assert OwedMonths(s, [], YearMonth(2024, 1), today) == {};
  }

  /** Enrolled 2024-02-01 with due day 31: February 2024 falls due on the 29th,
      not before. */
  lemma ScenarioLeapFebruary()
    ensures Arrears(Student(1, "Kim", "중1", 300000, 31, Some(Date(2024, 2, 1))), [],
                    YearMonth(2024, 2), Date(2024, 2, 29)) == 300000
    ensures Arrears(Student(1, "Kim", "중1", 300000, 31, Some(Date(2024, 2, 1))), [],
                    YearMonth(2024, 2), Date(2024, 2, 28)) == 0
  {
    var s := Student(1, "Kim", "중1", 300000, 31, Some(Date(2024, 2, 1)));
    assert OfIndex(24289) == YearMonth(2024, 2);
    assert DueDate(31, YearMonth(2024, 2)) == Date(2024, 2, 29);
    assert Owed(s, [], 24289, Date(2024, 2, 29));
    assert !Owed(s, [], 24289, Date(2024, 2, 28));
    assert OwedMonths(s, [], YearMonth(2024, 2), Date(2024, 2, 29)) == {24289};
    assert OwedMonths(s, [], YearMonth(2024, 2), Date(2024, 2, 28)) == {};
  }
}
