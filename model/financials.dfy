/**
 * The finance screen (components/Financials.tsx): revenue per calendar
 * month, the students whose newest payment is not settled, and the total
 * of all settled payments.
 *
 * The month buckets are a JavaScript object, whose string keys keep their
 * insertion order; `Buckets` records that order next to the amounts.
 */
module Financials {
  import opened Types
  import opened Strings
  import opened Seqs
  import opened Constants

  /** `students.flatMap(s => s.payments)`: every payment, student by student. */
  function AllPayments(students: seq<Student>): seq<Payment> {
    if |students| == 0 then []
    else AllPayments(students[..|students| - 1]) + students[|students| - 1].payments
  }

  /** What one payment adds to revenue: its amount when settled, nothing otherwise. */
  function PaidAmount(p: Payment): real {
    if p.status == Paid then p.amount else 0.0
  }

  /** `.filter(p => p.status === Paid).reduce((sum, p) => sum + p.amount, 0)`, left to right. */
  function PaidTotal(ps: seq<Payment>): real {
    if |ps| == 0 then 0.0 else PaidTotal(ps[..|ps| - 1]) + PaidAmount(ps[|ps| - 1])
  }

  lemma {:induction false} PaidTotalAppend(a: seq<Payment>, b: seq<Payment>)
    ensures PaidTotal(a + b) == PaidTotal(a) + PaidTotal(b)
  {
    if |b| > 0 {
      assert (a + b)[..|a + b| - 1] == a + b[..|b| - 1];
      PaidTotalAppend(a, b[..|b| - 1]);
    } else {
      assert a + b == a;
    }
  }

  /** Payments that are not settled contribute nothing to the total. */
  lemma {:induction false} UnpaidContributeNothing(ps: seq<Payment>)
    requires forall i :: 0 <= i < |ps| ==> ps[i].status != Paid
    ensures PaidTotal(ps) == 0.0
  {
    if |ps| > 0 {
      UnpaidContributeNothing(ps[..|ps| - 1]);
    }
  }

  /** Every payment in the flattened list belongs to one of the students. */
  lemma {:induction false} AllPaymentsFromStudents(students: seq<Student>)
    ensures forall p :: p in AllPayments(students) ==>
      exists i :: 0 <= i < |students| && p in students[i].payments
  {
    if |students| > 0 {
      var init := students[..|students| - 1];
      AllPaymentsFromStudents(init);
      forall p | p in AllPayments(students)
        ensures exists i :: 0 <= i < |students| && p in students[i].payments
      {
        if p in AllPayments(init) {
          var i :| 0 <= i < |init| && p in init[i].payments;
          assert students[i] == init[i];
        } else {
          assert p in students[|students| - 1].payments;
        }
      }
    }
  }

  /** `totalRevenue`: nothing settled means no revenue. */
  function TotalRevenue(students: seq<Student>): (r: real)
    ensures (forall i, j :: 0 <= i < |students| && 0 <= j < |students[i].payments| ==>
               students[i].payments[j].status != Paid) ==> r == 0.0
  {
    var ps := AllPayments(students);
    AllPaymentsFromStudents(students);
    if forall i, j :: 0 <= i < |students| && 0 <= j < |students[i].payments| ==> students[i].payments[j].status != Paid then
      assert forall k :: 0 <= k < |ps| ==> ps[k].status != Paid by {
        forall k | 0 <= k < |ps| ensures ps[k].status != Paid {
          assert ps[k] in ps;
          var i :| 0 <= i < |students| && ps[k] in students[i].payments;
          var j :| 0 <= j < |students[i].payments| && students[i].payments[j] == ps[k];
        }
      }
      UnpaidContributeNothing(ps);
      PaidTotal(ps)
    else
      PaidTotal(ps)
  }

  /** One more student adds exactly that student's settled payments to the total. */
  lemma TotalRevenueStep(students: seq<Student>, s: Student)
    ensures TotalRevenue(students + [s]) == TotalRevenue(students) + PaidTotal(s.payments)
  {
    assert (students + [s])[..|students|] == students;
    PaidTotalAppend(AllPayments(students), s.payments);
  }

  /** The filter of `studentsWithPendingPayments`: no payment, or a newest payment that is pending, overdue or billed. */
  predicate IsPending(s: Student) {
    |s.payments| == 0 || s.payments[0].status == Pending || s.payments[0].status == Overdue
      || s.payments[0].status == BoletoGerado
  }

  /** A student is pending exactly when the newest payment is not a settled one. */
  lemma PendingIffNewestNotPaid(s: Student)
    ensures IsPending(s) <==> !(|s.payments| > 0 && s.payments[0].status == Paid)
  {
  }

  /** `studentsWithPendingPayments`: each pending student as often as listed. */
  function PendingStudents(students: seq<Student>): (r: seq<Student>)
    ensures forall s :: s in r <==> s in students && IsPending(s)
    ensures forall s :: multiset(r)[s] == (if IsPending(s) then multiset(students)[s] else 0)
  {
    FilterCounts(students, IsPending);
    Filter(students, IsPending)
  }

  /** The pending list keeps the students' order: it distributes over concatenation, one student at a time. */
  lemma PendingStudentsAppend(a: seq<Student>, b: seq<Student>, s: Student)
    ensures PendingStudents(a + b) == PendingStudents(a) + PendingStudents(b)
    ensures PendingStudents([s]) == if IsPending(s) then [s] else []
  {
    FilterAppend(a, b, IsPending);
    assert [s][1..] == [];
  }

  /** The count shown (`studentsWithPendingPayments.length`) grows by one exactly for a pending student. */
  lemma PendingCountStep(students: seq<Student>, s: Student)
    ensures |PendingStudents(students + [s])| == |PendingStudents(students)| + (if IsPending(s) then 1 else 0)
  {
    PendingStudentsAppend(students, [s], s);
  }

  /** `${year}-${String(month).padStart(2, '0')}`, with the calendar's year and zero-based month. */
  function MonthKey(cal: Calendar, date: int): (k: string)
    ensures var y := NatText(cal.yearOf(date));
      |k| >= |y| + 3 && k[..|y|] == y && k[|y|] == '-'
  {
    var y, m := NatText(cal.yearOf(date)), Pad2(cal.monthOf(date));
    assert |m| >= 2;
    y + "-" + m
  }

  /** The key is the year, a dash, and the zero-based month as exactly two digits. */
  lemma MonthKeyShape(cal: Calendar, d: int)
    requires cal.monthOf(d) < 12
    ensures var k := MonthKey(cal, d);
      && |k| >= 4
      && k[..|k| - 3] == NatText(cal.yearOf(d))
      && k[|k| - 3] == '-'
      && DigitsValue(k[|k| - 2..]) == cal.monthOf(d)
  {
    var y, m := NatText(cal.yearOf(d)), Pad2(cal.monthOf(d));
    Pad2Month(cal.monthOf(d));
    var k := MonthKey(cal, d);
    assert k == y + "-" + m;
    assert k[|k| - 2..] == m;
    assert k[..|k| - 3] == y;
  }

  /** A calendar whose months are numbered 0 to 11. */
  ghost predicate ValidCalendar(cal: Calendar) {
    forall d :: cal.monthOf(d) < 12
  }

  /** The decimal rendering of a natural number determines it. */
  lemma NatTextInjective(a: nat, b: nat)
    requires NatText(a) == NatText(b)
    ensures a == b
  {
    NatTextRoundTrip(a);
    NatTextRoundTrip(b);
  }

  /** Two dates share a bucket exactly when they fall in the same year and month. */
  lemma MonthKeySeparates(cal: Calendar, d1: int, d2: int)
    requires ValidCalendar(cal)
    ensures MonthKey(cal, d1) == MonthKey(cal, d2) <==>
      cal.yearOf(d1) == cal.yearOf(d2) && cal.monthOf(d1) == cal.monthOf(d2)
  {
    var y1, y2, m1, m2 := NatText(cal.yearOf(d1)), NatText(cal.yearOf(d2)), cal.monthOf(d1), cal.monthOf(d2);
    if MonthKey(cal, d1) == MonthKey(cal, d2) {
      assert '-' !in y1 && '-' !in y2;
      KeySplits(y1, Pad2(m1), y2, Pad2(m2));
      NatTextInjective(cal.yearOf(d1), cal.yearOf(d2));
      Pad2Month(m1);
      Pad2Month(m2);
    }
  }

  /** `revenueByMonth`: keys in insertion order and the amount under each. */
  datatype Buckets = Buckets(order: seq<string>, amounts: map<string, real>)

  /** The keys are listed once each, and exactly the keys that hold an amount. */
  ghost predicate WellFormed(b: Buckets) {
    && (forall i, j :: 0 <= i < j < |b.order| ==> b.order[i] != b.order[j])
    && (forall k :: k in b.amounts <==> k in b.order)
  }

  /** `if (!revenueByMonth[key]) revenueByMonth[key] = 0; revenueByMonth[key] += amount`. */
  function AddToBucket(b: Buckets, key: string, amount: real): (r: Buckets)
    ensures key in r.amounts
  {
    var order := if key in b.amounts then b.order else b.order + [key];
    var base := if key in b.amounts && b.amounts[key] != 0.0 then b.amounts[key] else 0.0;
    Buckets(order, b.amounts[key := base + amount])
  }

  /** The buckets after the loops have seen `ps`, in order. */
  function Accum(ps: seq<Payment>, cal: Calendar): Buckets {
    if |ps| == 0 then Buckets([], map[])
    else
      var b := Accum(ps[..|ps| - 1], cal);
      var p := ps[|ps| - 1];
      if p.status == Paid then AddToBucket(b, MonthKey(cal, p.date), p.amount) else b
  }

  /** One more payment after `ps`: a settled one is added to its month's bucket. */
  lemma AccumStep(ps: seq<Payment>, p: Payment, cal: Calendar)
    ensures Accum(ps + [p], cal)
      == if p.status == Paid then AddToBucket(Accum(ps, cal), MonthKey(cal, p.date), p.amount) else Accum(ps, cal)
  {
    assert (ps + [p])[..|ps|] == ps;
  }

  /** The inner loop's step: payment `j` of the current student follows those before it. */
  lemma AccumNext(done: seq<Payment>, payments: seq<Payment>, j: nat, cal: Calendar)
    requires j < |payments|
    ensures var p := payments[j];
      Accum(done + payments[..j + 1], cal)
        == if p.status == Paid then AddToBucket(Accum(done + payments[..j], cal), MonthKey(cal, p.date), p.amount)
           else Accum(done + payments[..j], cal)
  {
    assert done + payments[..j + 1] == (done + payments[..j]) + [payments[j]];
    AccumStep(done + payments[..j], payments[j], cal);
  }

  /** One more student: that student's payments follow everyone else's. */
  lemma AllPaymentsStep(students: seq<Student>, i: nat)
    requires i < |students|
    ensures AllPayments(students[..i + 1]) == AllPayments(students[..i]) + students[i].payments
  {
    assert students[..i + 1][..i] == students[..i];
  }

  /** The nested `forEach` loops of `monthlyRevenueData`. */
  method RevenueByMonth(students: seq<Student>, cal: Calendar) returns (b: Buckets)
    ensures b == Accum(AllPayments(students), cal)
  {
    b := Buckets([], map[]);
    var i := 0;
    while i < |students|
      invariant 0 <= i <= |students|
      invariant b == Accum(AllPayments(students[..i]), cal)
    {
      var payments := students[i].payments;
      var done := AllPayments(students[..i]);
      var j := 0;
      assert done + payments[..0] == done;
      while j < |payments|
        invariant 0 <= j <= |payments|
        invariant b == Accum(done + payments[..j], cal)
      {
        var p := payments[j];
        AccumNext(done, payments, j, cal);
        if p.status == Paid {
          b := AddToBucket(b, MonthKey(cal, p.date), p.amount);
        }
        j := j + 1;
      }
      AllPaymentsStep(students, i);
      assert payments[..j] == payments;
      i := i + 1;
    }
    assert students[..i] == students;
  }

  /** The amount in bucket `k`, or 0 when there is no such bucket. */
  function AmountIn(b: Buckets, k: string): real {
    if k in b.amounts then b.amounts[k] else 0.0
  }

  /** The payments whose date falls in the month with key `k`. */
  function InMonth(ps: seq<Payment>, cal: Calendar, k: string): seq<Payment> {
    Filter(ps, DatedIn(cal, k))
  }

  /** The test "this payment's date falls in the month with key `k`". */
  function DatedIn(cal: Calendar, k: string): Payment -> bool {
    (p: Payment) => MonthKey(cal, p.date) == k
  }

  /** Adding to bucket `key` changes that bucket only, by the amount. */
  lemma AmountInAfterAdd(b: Buckets, key: string, amount: real, k: string)
    ensures AmountIn(AddToBucket(b, key, amount), k) == AmountIn(b, k) + (if key == k then amount else 0.0)
  {
  }

  /** One more payment joins its own month's list only. */
  lemma InMonthStep(ps: seq<Payment>, p: Payment, cal: Calendar, k: string)
    ensures InMonth(ps + [p], cal, k) == InMonth(ps, cal, k) + (if MonthKey(cal, p.date) == k then [p] else [])
  {
    FilterAppend(ps, [p], DatedIn(cal, k));
    assert [p][1..] == [];
  }

  /** The share of payment `p` in the month with key `k`: its settled amount, or nothing. */
  function ShareIn(p: Payment, cal: Calendar, k: string): real {
    if MonthKey(cal, p.date) == k then PaidAmount(p) else 0.0
  }

  /** The last payment adds its share to bucket `k`. */
  lemma AmountInStep(ps: seq<Payment>, cal: Calendar, k: string)
    requires |ps| > 0
    ensures AmountIn(Accum(ps, cal), k) == AmountIn(Accum(ps[..|ps| - 1], cal), k) + ShareIn(ps[|ps| - 1], cal, k)
  {
    var p := ps[|ps| - 1];
    if p.status == Paid {
      AmountInAfterAdd(Accum(ps[..|ps| - 1], cal), MonthKey(cal, p.date), p.amount, k);
    }
  }

  /** The last payment adds its share to the settled total of month `k`. */
  lemma InMonthTotalStep(ps: seq<Payment>, cal: Calendar, k: string)
    requires |ps| > 0
    ensures PaidTotal(InMonth(ps, cal, k)) == PaidTotal(InMonth(ps[..|ps| - 1], cal, k)) + ShareIn(ps[|ps| - 1], cal, k)
  {
    var init := ps[..|ps| - 1];
    var p := ps[|ps| - 1];
    assert ps == init + [p];
    InMonthStep(init, p, cal, k);
    assert InMonth(ps, cal, k) == InMonth(init + [p], cal, k);
    if MonthKey(cal, p.date) == k {
      PaidTotalAppend(InMonth(init, cal, k), [p]);
      assert PaidTotal([p]) == PaidAmount(p) by {
        assert [p][..0] == [];
      }
    } else {
      var before := InMonth(init, cal, k);
      assert before + [] == before;
      assert InMonth(ps, cal, k) == before;
    }
  }

  /** Each bucket holds the total of the settled payments of its month. */
  lemma {:induction false} BucketIsMonthTotal(ps: seq<Payment>, cal: Calendar, k: string)
    ensures AmountIn(Accum(ps, cal), k) == PaidTotal(InMonth(ps, cal, k))
  {
    if |ps| > 0 {
      BucketIsMonthTotal(ps[..|ps| - 1], cal, k);
      AmountInStep(ps, cal, k);
      InMonthTotalStep(ps, cal, k);
    }
  }

  /** A month has a bucket exactly when it has a settled payment. */
  lemma {:induction false} BucketIffPaidInMonth(ps: seq<Payment>, cal: Calendar, k: string)
    ensures k in Accum(ps, cal).amounts <==>
      exists i :: 0 <= i < |ps| && ps[i].status == Paid && MonthKey(cal, ps[i].date) == k
  {
    if |ps| > 0 {
      var init := ps[..|ps| - 1];
      var p := ps[|ps| - 1];
      BucketIffPaidInMonth(init, cal, k);
      assert forall i :: 0 <= i < |init| ==> init[i] == ps[i];
      if p.status == Paid && MonthKey(cal, p.date) == k {
        assert k in Accum(ps, cal).amounts;
      }
    }
  }

  /** The amounts under `keys`, added up. */
  function SumOver(keys: seq<string>, m: map<string, real>): real {
    if |keys| == 0 then 0.0
    else SumOver(keys[..|keys| - 1], m) + (if keys[|keys| - 1] in m then m[keys[|keys| - 1]] else 0.0)
  }

  lemma {:induction false} SumOverAppend(a: seq<string>, b: seq<string>, m: map<string, real>)
    ensures SumOver(a + b, m) == SumOver(a, m) + SumOver(b, m)
  {
    if |b| > 0 {
      assert (a + b)[..|a + b| - 1] == a + b[..|b| - 1];
      SumOverAppend(a, b[..|b| - 1], m);
    } else {
      assert a + b == a;
    }
  }

  /** Changing the amount of a key that is not listed does not change the sum. */
  lemma {:induction false} SumOverUnlisted(keys: seq<string>, m: map<string, real>, k: string, v: real)
    requires k !in keys
    ensures SumOver(keys, m[k := v]) == SumOver(keys, m)
  {
    if |keys| > 0 {
      SumOverUnlisted(keys[..|keys| - 1], m, k, v);
    }
  }

  /** Changing the amount of a key listed once changes the sum by the difference. */
  lemma {:induction false} SumOverListedOnce(keys: seq<string>, m: map<string, real>, k: string, v: real)
    requires k in m
    requires k in keys
    requires forall i, j :: 0 <= i < j < |keys| ==> keys[i] != keys[j]
    ensures SumOver(keys, m[k := v]) == SumOver(keys, m) - m[k] + v
  {
    var init := keys[..|keys| - 1];
    if keys[|keys| - 1] == k {
      assert k !in init;
      SumOverUnlisted(init, m, k, v);
    } else {
      assert k in init;
      SumOverListedOnce(init, m, k, v);
    }
  }

  /** Adding to a bucket keeps the buckets well formed and raises their sum by the amount. */
  lemma AddToBucketAdds(b: Buckets, key: string, amount: real)
    requires WellFormed(b)
    ensures WellFormed(AddToBucket(b, key, amount))
    ensures SumOver(AddToBucket(b, key, amount).order, AddToBucket(b, key, amount).amounts)
      == SumOver(b.order, b.amounts) + amount
  {
    var r := AddToBucket(b, key, amount);
    if key in b.amounts {
      SumOverListedOnce(b.order, b.amounts, key, r.amounts[key]);
    } else {
      SumOverUnlisted(b.order, b.amounts, key, amount);
      SumOverAppend(b.order, [key], r.amounts);
      assert [key][..0] == [];
    }
  }

  /**
   * The buckets stay well formed and their amounts add up to the settled
   * payments seen: each settled amount lands in exactly one bucket.
   */
  lemma {:induction false} BucketsAddUpToTotal(ps: seq<Payment>, cal: Calendar)
    ensures WellFormed(Accum(ps, cal))
    ensures SumOver(Accum(ps, cal).order, Accum(ps, cal).amounts) == PaidTotal(ps)
  {
    if |ps| > 0 {
      var init := ps[..|ps| - 1];
      var p := ps[|ps| - 1];
      BucketsAddUpToTotal(init, cal);
      if p.status == Paid {
        AddToBucketAdds(Accum(init, cal), MonthKey(cal, p.date), p.amount);
      }
    }
  }

  /** The sum depends only on which keys are listed, not on their order. */
  lemma {:induction false} SumOverPermutation(s: seq<string>, t: seq<string>, m: map<string, real>)
    requires multiset(s) == multiset(t)
    ensures SumOver(s, m) == SumOver(t, m)
    decreases |s|
  {
    if |s| > 0 {
      var x := s[|s| - 1];
      var init := s[..|s| - 1];
      assert x in multiset(t);
      var k :| 0 <= k < |t| && t[k] == x;
      var rest := t[..k] + t[k + 1..];
      RemoveOne(s, |s| - 1);
      assert s[..|s| - 1] + s[|s|..] == init;
      RemoveOne(t, k);
      assert multiset(init) == multiset(rest);
      SumOverPermutation(init, rest, m);
      SumOverRemove(t, k, m);
      assert SumOver([x], m) == SumOver(s, m) - SumOver(init, m);
    } else {
      assert |t| == |multiset(t)| == 0;
    }
  }

  /** The sum is the sum without position `k` plus the amount at `k`. */
  lemma SumOverRemove(t: seq<string>, k: nat, m: map<string, real>)
    requires k < |t|
    ensures SumOver(t, m) == SumOver(t[..k] + t[k + 1..], m) + SumOver([t[k]], m)
  {
    SumOverAppend(t[..k] + [t[k]], t[k + 1..], m);
    SumOverAppend(t[..k], [t[k]], m);
    SumOverAppend(t[..k], t[k + 1..], m);
    assert t == t[..k] + [t[k]] + t[k + 1..];
  }

  /** Removing the element at `k` removes one occurrence of it from the multiset. */
  lemma RemoveOne(s: seq<string>, k: nat)
    requires k < |s|
    ensures multiset(s[..k] + s[k + 1..]) == multiset(s) - multiset{s[k]}
  {
    assert s == s[..k] + [s[k]] + s[k + 1..];
  }

  /** The code-unit order `sort()` uses on the keys. */
  function KeyLe(a: string, b: string): bool {
    LexLe(a, b)
  }

  lemma KeyLeIsTotalPreorder()
    ensures TotalPreorder(KeyLe)
  {
    forall a, b ensures KeyLe(a, b) || KeyLe(b, a) {
      LexLeTotal(a, b);
    }
    forall a, b, c | KeyLe(a, b) && KeyLe(b, c) ensures KeyLe(a, c) {
      LexLeTrans(a, b, c);
    }
  }

  /** One bar of the chart: a month key and its revenue. */
  datatype Row = Row(key: string, revenue: real)

  /** `Object.keys(revenueByMonth).sort().map(...)`: one row per listed key, with that key's amount. */
  function MonthlyRows(b: Buckets): (rows: seq<Row>)
    ensures |rows| == |b.order|
    ensures forall i :: 0 <= i < |rows| ==> rows[i].key in b.order && rows[i].revenue == AmountIn(b, rows[i].key)
  {
    var keys := SortBy(b.order, KeyLe);
    assert |keys| == |multiset(keys)| == |multiset(b.order)| == |b.order|;
    assert forall i :: 0 <= i < |keys| ==> keys[i] in multiset(b.order);
    seq(|keys|, i requires 0 <= i < |keys| => Row(keys[i], if keys[i] in b.amounts then b.amounts[keys[i]] else 0.0))
  }

  function RowsTotal(rows: seq<Row>): real {
    if |rows| == 0 then 0.0 else RowsTotal(rows[..|rows| - 1]) + rows[|rows| - 1].revenue
  }

  lemma {:induction false} RowsTotalIsSumOver(keys: seq<string>, m: map<string, real>)
    ensures RowsTotal(seq(|keys|, i requires 0 <= i < |keys| => Row(keys[i], if keys[i] in m then m[keys[i]] else 0.0)))
      == SumOver(keys, m)
  {
    if |keys| > 0 {
      var rows := seq(|keys|, i requires 0 <= i < |keys| => Row(keys[i], if keys[i] in m then m[keys[i]] else 0.0));
      var init := keys[..|keys| - 1];
      assert rows[..|rows| - 1] == seq(|init|, i requires 0 <= i < |init| => Row(init[i], if init[i] in m then m[init[i]] else 0.0));
      RowsTotalIsSumOver(init, m);
    }
  }

  /** The chart rows come in ascending key order and never repeat a key. */
  lemma MonthlyRowsAscending(b: Buckets)
    requires WellFormed(b)
    ensures var rows := MonthlyRows(b);
      forall i, j :: 0 <= i < j < |rows| ==> LexLe(rows[i].key, rows[j].key) && rows[i].key != rows[j].key
  {
    var keys := SortBy(b.order, KeyLe);
    KeyLeIsTotalPreorder();
    SortBySorted(b.order, KeyLe);
    var rows := MonthlyRows(b);
    forall i, j | 0 <= i < j < |rows| ensures LexLe(rows[i].key, rows[j].key) && rows[i].key != rows[j].key {
      assert KeyLe(keys[i], keys[j]);
      DistinctAfterPermutation(b.order, keys, i, j);
    }
  }

  /** There is a chart row for exactly the month keys that hold an amount. */
  lemma MonthlyRowsCoverBuckets(b: Buckets)
    requires WellFormed(b)
    ensures var rows := MonthlyRows(b);
      forall k :: k in b.amounts <==> exists i :: 0 <= i < |rows| && rows[i].key == k
  {
    var keys := SortBy(b.order, KeyLe);
    var rows := MonthlyRows(b);
    forall k ensures k in b.amounts <==> exists i :: 0 <= i < |rows| && rows[i].key == k {
      assert k in b.order <==> k in multiset(keys);
      if k in keys {
        var i :| 0 <= i < |keys| && keys[i] == k;
        assert rows[i].key == k;
      }
    }
  }

  /** The chart rows add up to the total revenue: no settled payment is lost or counted twice. */
  lemma MonthlyRowsAddUpToTotal(students: seq<Student>, cal: Calendar)
    ensures RowsTotal(MonthlyRows(Accum(AllPayments(students), cal))) == TotalRevenue(students)
  {
    var b := Accum(AllPayments(students), cal);
    var keys := SortBy(b.order, KeyLe);
    BucketsAddUpToTotal(AllPayments(students), cal);
    SumOverPermutation(keys, b.order, b.amounts);
    RowsTotalIsSumOver(keys, b.amounts);
  }

  /** A permutation of a list without repeats has no repeats. */
  lemma DistinctAfterPermutation(s: seq<string>, t: seq<string>, i: nat, j: nat)
    requires forall a, b :: 0 <= a < b < |s| ==> s[a] != s[b]
    requires multiset(s) == multiset(t)
    requires i < j < |t|
    ensures t[i] != t[j]
  {
    if t[i] == t[j] {
      assert multiset(t)[t[i]] >= 2 by {
        assert t == t[..i] + [t[i]] + t[i + 1..j] + [t[j]] + t[j + 1..];
      }
      CountAtMostOne(s, t[i]);
    }
  }

  /** In a list without repeats every value occurs at most once. */
  lemma {:induction false} CountAtMostOne(s: seq<string>, x: string)
    requires forall a, b :: 0 <= a < b < |s| ==> s[a] != s[b]
    ensures multiset(s)[x] <= 1
  {
    if |s| > 0 {
      var init := s[..|s| - 1];
      CountAtMostOne(init, x);
      assert s == init + [s[|s| - 1]];
      if s[|s| - 1] == x {
        assert x !in init;
      }
    }
  }
}
