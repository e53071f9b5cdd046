/**
 * The dashboard's three figures (components/Dashboard.tsx): the number of
 * students, the number of students with an open payment, and the revenue
 * of the month, taken as each student's first settled payment.
 */
module Dashboard {
  import opened Types
  import opened Seqs
  import opened Financials

  /** `totalStudents`: one per listed student. */
  function TotalStudents(students: seq<Student>): (n: nat)
    ensures n == |students|
  {
    |students|
  }

  /** A payment that is overdue or pending; a billed (`BoletoGerado`) one is not open. */
  predicate IsOpen(p: Payment) {
    p.status == Overdue || p.status == Pending
  }

  /**
   * `s.payments.some(...)`: a student without payments has none open, and an
   * open newest payment makes the student count.
   */
  predicate HasOpenPayment(s: Student)
    ensures HasOpenPayment(s) ==> |s.payments| > 0
    ensures |s.payments| > 0 && IsOpen(s.payments[0]) ==> HasOpenPayment(s)
  {
    exists i :: 0 <= i < |s.payments| && IsOpen(s.payments[i])
  }

  /** `overdueStudents`: how many students have an open payment anywhere in their history. */
  function OverdueCount(students: seq<Student>): (n: nat)
    ensures n <= TotalStudents(students)
  {
    |Filter(students, HasOpenPayment)|
  }

  /** Every student is either counted or not: the counted and the uncounted make up the whole list. */
  lemma {:induction false} CountedAndUncountedPartition(students: seq<Student>)
    ensures OverdueCount(students) + |Filter(students, s => !HasOpenPayment(s))| == TotalStudents(students)
  {
    if |students| > 0 {
      CountedAndUncountedPartition(students[1..]);
    }
  }

  /** One more student raises the count by one exactly when that student has an open payment. */
  lemma OverdueCountStep(students: seq<Student>, s: Student)
    ensures OverdueCount(students + [s]) == OverdueCount(students) + (if HasOpenPayment(s) then 1 else 0)
  {
    FilterAppend(students, [s], HasOpenPayment);
    assert [s][1..] == [];
  }

  /** A student without payments, or whose payments are all settled or billed, is not counted. */
  lemma ClosedStudentsNotCounted(students: seq<Student>)
    requires forall i, j :: 0 <= i < |students| && 0 <= j < |students[i].payments| ==>
               students[i].payments[j].status == Paid || students[i].payments[j].status == BoletoGerado
    ensures OverdueCount(students) == 0
  {
    FilterDropsAll(students, HasOpenPayment);
  }

  /**
   * The amount of the first settled payment in the history, if any (`find`
   * then `lastPayment.amount`): 0 when nothing is settled.
   */
  function FirstPaidAmount(s: Student): (r: real)
    ensures (forall j :: 0 <= j < |s.payments| ==> s.payments[j].status != Paid) ==> r == 0.0
    ensures forall k :: (0 <= k < |s.payments| && s.payments[k].status == Paid
      && forall j :: 0 <= j < k ==> s.payments[j].status != Paid) ==> r == s.payments[k].amount
  {
    assert forall k :: ((0 <= k < |s.payments| && s.payments[k].status == Paid
      && forall j :: 0 <= j < k ==> s.payments[j].status != Paid)
      ==> FindFirst(s.payments, (p: Payment) => p.status == Paid) == Some(s.payments[k])) by {
      forall k | 0 <= k < |s.payments| && s.payments[k].status == Paid
        && (forall j :: 0 <= j < k ==> s.payments[j].status != Paid)
        ensures FindFirst(s.payments, (p: Payment) => p.status == Paid) == Some(s.payments[k])
      {
        FindFirstIsFirst(s.payments, (p: Payment) => p.status == Paid, k);
      }
    }
    match FindFirst(s.payments, (p: Payment) => p.status == Paid)
    case Some(p) => p.amount
    case None => 0.0
  }

  /** `monthlyRevenue`: the `reduce` over students, left to right; never negative when no amount is. */
  function MonthlyRevenue(students: seq<Student>): (r: real)
    ensures NonNegativeAmounts(students) ==> r >= 0.0
  {
    if |students| == 0 then 0.0
    else
      var init, last := students[..|students| - 1], students[|students| - 1];
      assert NonNegativeAmounts(students) ==> NonNegativeAmounts(init) && FirstPaidAmount(last) >= 0.0 by {
        if NonNegativeAmounts(students) {
          forall i, j | 0 <= i < |init| && 0 <= j < |init[i].payments| ensures init[i].payments[j].amount >= 0.0 {
            assert init[i] == students[i];
          }
          var ps := last.payments;
          if exists k :: 0 <= k < |ps| && ps[k].status == Paid {
            var k := FindIndex(ps, (p: Payment) => p.status == Paid);
            assert ps[k].amount >= 0.0;
          }
        }
      }
      MonthlyRevenue(init) + FirstPaidAmount(last)
  }

  /** Amounts are never negative. */
  ghost predicate NonNegativeAmounts(students: seq<Student>) {
    forall i, j :: 0 <= i < |students| && 0 <= j < |students[i].payments| ==> students[i].payments[j].amount >= 0.0
  }

  /** The settled total of a history is never negative when no amount is. */
  lemma {:induction false} PaidTotalNonNegative(ps: seq<Payment>)
    requires forall j :: 0 <= j < |ps| ==> ps[j].amount >= 0.0
    ensures PaidTotal(ps) >= 0.0
  {
    if |ps| > 0 {
      PaidTotalNonNegative(ps[..|ps| - 1]);
    }
  }

  /** The first settled payment is one of the settled payments: it is at most their total. */
  lemma {:induction false} FirstPaidWithinTotal(ps: seq<Payment>)
    requires forall j :: 0 <= j < |ps| ==> ps[j].amount >= 0.0
    ensures (match FindFirst(ps, (p: Payment) => p.status == Paid)
             case Some(p) => p.amount
             case None => 0.0) <= PaidTotal(ps)
  {
    if |ps| > 0 {
      PaidTotalAppend([ps[0]], ps[1..]);
      assert [ps[0]] + ps[1..] == ps;
      assert [ps[0]][..0] == [];
      PaidTotalNonNegative(ps[1..]);
      if ps[0].status != Paid {
        FirstPaidWithinTotal(ps[1..]);
      }
    }
  }

  /**
   * With no negative amounts, the dashboard's monthly revenue never exceeds
   * the all-time revenue the finance screen shows: each student contributes
   * one of their settled payments at most.
   */
  lemma {:induction false} MonthlyWithinTotal(students: seq<Student>)
    requires NonNegativeAmounts(students)
    ensures MonthlyRevenue(students) <= TotalRevenue(students)
  {
    if |students| > 0 {
      var init := students[..|students| - 1];
      var last := students[|students| - 1];
      assert NonNegativeAmounts(init) by {
        forall i, j | 0 <= i < |init| && 0 <= j < |init[i].payments| ensures init[i].payments[j].amount >= 0.0 {
          assert init[i] == students[i];
        }
      }
      MonthlyWithinTotal(init);
      FirstPaidWithinTotal(last.payments);
      PaidTotalAppend(AllPayments(init), last.payments);
    }
  }

  /** A student whose history has no settled payment adds nothing to the month's revenue. */
  lemma NoPaidAddsNothing(s: Student)
    requires forall j :: 0 <= j < |s.payments| ==> s.payments[j].status != Paid
    ensures FirstPaidAmount(s) == 0.0
  {
  }
}
