/**
 * The figures of the daily report (library/tasks.py, send_daily_report):
 * what happened during the 24 hours before `now`. Sending the report is
 * not part of this model.
 */
module Tasks {
  import opened Wrappers
  import opened Models
  import opened Seqs

  datatype DailyReport = DailyReport(newBorrowings: nat, returned: nat, totalEarned: Cents, payments: nat)

  /** `timezone.now() - timedelta(days=1)` */
  function Cutoff(now: Instant): (c: Instant)
    ensures c < now && now - c == SecondsPerDay
  {
    now - SecondsPerDay
  }

  /**
   * The date a date column is compared with: a `DateField` lookup given an
   * aware datetime takes its date in the configured time zone, which is
   * `DayOf` of the cutoff (instants are that zone's wall-clock seconds).
   */
  function CutoffDay(now: Instant): (d: Day)
    ensures d * SecondsPerDay <= Cutoff(now) < (d + 1) * SecondsPerDay
  {
    DayOf(Cutoff(now))
  }

  predicate BorrowedSince(day: Day, b: Borrowing)
  {
    b.borrowDate >= day
  }

  /** A null return date never compares, so unreturned rows are not returns. */
  predicate ReturnedSince(day: Day, b: Borrowing)
  {
    b.actualReturnDate.Some? && b.actualReturnDate.value >= day
  }

  predicate PaidSince(cutoff: Instant, p: Payment)
  {
    p.createdAt >= cutoff && p.status == Paid
  }

  /** `sum(p.money_to_pay for p in payments) or 0` */
  function Total(ps: seq<Payment>): (t: Cents)
    ensures (forall i :: 0 <= i < |ps| ==> ps[i].moneyToPay >= 0) ==> t >= 0
  {
    if ps == [] then 0 else Total(ps[..|ps| - 1]) + ps[|ps| - 1].moneyToPay
  }

  lemma TotalAppend(ps: seq<Payment>, p: Payment)
    ensures Total(ps + [p]) == Total(ps) + p.moneyToPay
  {
    assert (ps + [p])[..|ps|] == ps;
  }

  /** Valid amounts are at least one cent, so the total is at least the count. */
  lemma {:induction false} TotalAtLeastCount(ps: seq<Payment>)
    requires forall i :: 0 <= i < |ps| ==> ps[i].moneyToPay >= MinAmount
    ensures Total(ps) >= |ps| * MinAmount
  {
    if ps != [] {
      TotalAtLeastCount(ps[..|ps| - 1]);
    }
  }

  function PaidSinceRows(ps: seq<Payment>, now: Instant): (r: seq<Payment>)
    ensures forall p :: p in r <==> p in ps && PaidSince(Cutoff(now), p)
  {
    var cutoff := Cutoff(now);
    forall p ensures p in Filter(ps, p => PaidSince(cutoff, p)) <==> p in ps && PaidSince(cutoff, p) {
      FilterMembership(ps, p => PaidSince(cutoff, p), p);
    }
    Filter(ps, p => PaidSince(cutoff, p))
  }

  /**
   * The report: borrowings borrowed and returned on or after the cutoff's
   * date, and the PAID payments created since the cutoff with their total.
   */
  function Report(bs: seq<Borrowing>, ps: seq<Payment>, now: Instant): (r: DailyReport)
    ensures r.newBorrowings <= |bs| && r.returned <= |bs| && r.payments <= |ps|
    ensures r.payments == 0 ==> r.totalEarned == 0
  {
    var day := CutoffDay(now);
    var paid := PaidSinceRows(ps, now);
    assert forall p :: p in paid ==> p in ps;
    DailyReport(|Filter(bs, b => BorrowedSince(day, b))|,
                |Filter(bs, b => ReturnedSince(day, b))|,
                Total(paid),
                |paid|)
  }

  /** With valid amounts the earnings are at least one cent per payment. */
  lemma EarningsAtLeastPayments(bs: seq<Borrowing>, ps: seq<Payment>, now: Instant)
    requires forall i :: 0 <= i < |ps| ==> ps[i].moneyToPay >= MinAmount
    ensures Report(bs, ps, now).totalEarned >= Report(bs, ps, now).payments * MinAmount
  {
    var paid := PaidSinceRows(ps, now);
    assert forall i :: 0 <= i < |paid| ==> paid[i] in ps;
    TotalAtLeastCount(paid);
  }

  /** An unreturned borrowing is never counted as a return. */
  lemma ActiveBorrowingIsNoReturn(bs: seq<Borrowing>, ps: seq<Payment>, now: Instant, b: Borrowing)
    requires b.IsActive()
    ensures Report(bs + [b], ps, now).returned == Report(bs, ps, now).returned
  {
    var day := CutoffDay(now);
    FilterAppend(bs, [b], b => ReturnedSince(day, b));
  }

  /** A borrowing made on the cutoff's date or later is a new borrowing. */
  lemma RecentBorrowingCounts(bs: seq<Borrowing>, ps: seq<Payment>, now: Instant, b: Borrowing)
    requires b.borrowDate >= CutoffDay(now)
    ensures Report(bs + [b], ps, now).newBorrowings == Report(bs, ps, now).newBorrowings + 1
  {
    var day := CutoffDay(now);
    FilterAppend(bs, [b], b => BorrowedSince(day, b));
  }

  /**
   * Any appended borrowing adds one new borrowing exactly when it was made on
   * or after the cutoff's date, and one return exactly when it was returned
   * on or after that date; the payment figures stay.
   */
  lemma BorrowingFigures(bs: seq<Borrowing>, ps: seq<Payment>, now: Instant, b: Borrowing)
    ensures Report(bs + [b], ps, now).newBorrowings
            == Report(bs, ps, now).newBorrowings + (if BorrowedSince(CutoffDay(now), b) then 1 else 0)
    ensures Report(bs + [b], ps, now).returned
            == Report(bs, ps, now).returned + (if ReturnedSince(CutoffDay(now), b) then 1 else 0)
    ensures Report(bs + [b], ps, now).payments == Report(bs, ps, now).payments
    ensures Report(bs + [b], ps, now).totalEarned == Report(bs, ps, now).totalEarned
  {
    var day := CutoffDay(now);
    FilterAppend(bs, [b], b => BorrowedSince(day, b));
    FilterAppend(bs, [b], b => ReturnedSince(day, b));
  }

  /** The empty tables give an empty report. */
  lemma EmptyReport(now: Instant)
    ensures Report([], [], now) == DailyReport(0, 0, 0, 0)
  {
  }

  /** A payment that is not PAID, or older than the cutoff, changes no figure. */
  lemma UnpaidPaymentIgnored(bs: seq<Borrowing>, ps: seq<Payment>, now: Instant, p: Payment)
    requires p.status == Pending || p.createdAt < Cutoff(now)
    ensures Report(bs, ps + [p], now) == Report(bs, ps, now)
  {
    var cutoff := Cutoff(now);
    FilterAppend(ps, [p], p => PaidSince(cutoff, p));
    assert Filter([p], p => PaidSince(cutoff, p)) == [];
    assert PaidSinceRows(ps + [p], now) == PaidSinceRows(ps, now);
  }

  /** A PAID payment since the cutoff adds one payment and its amount. */
  lemma PaidPaymentCounts(bs: seq<Borrowing>, ps: seq<Payment>, now: Instant, p: Payment)
    requires p.status == Paid && p.createdAt >= Cutoff(now)
    ensures Report(bs, ps + [p], now).payments == Report(bs, ps, now).payments + 1
    ensures Report(bs, ps + [p], now).totalEarned == Report(bs, ps, now).totalEarned + p.moneyToPay
    ensures Report(bs, ps + [p], now).newBorrowings == Report(bs, ps, now).newBorrowings
    ensures Report(bs, ps + [p], now).returned == Report(bs, ps, now).returned
  {
    var cutoff := Cutoff(now);
    FilterAppend(ps, [p], p => PaidSince(cutoff, p));
    TotalAppend(Filter(ps, p => PaidSince(cutoff, p)), p);
  }
}
