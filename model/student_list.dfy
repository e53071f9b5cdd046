/**
 * The student table (components/StudentList.tsx): the name search, the
 * payment status badge, the per-row stripe progress, and the refresh of
 * the selected student when the list changes.
 */
module StudentListPage {
  import opened Types
  import opened Strings
  import opened Seqs
  import opened Constants
  import opened Students
  import opened GraduationSettingsStore

  /** Whether `name` matches the search term, both lower-cased. */
  predicate NameMatches(s: Student, term: string) {
    Contains(Lower(s.name), Lower(term))
  }

  /** `filteredStudents`: each matching student as often as listed. */
  function FilteredStudents(students: seq<Student>, term: string): (r: seq<Student>)
    ensures forall s :: s in r <==> s in students && NameMatches(s, term)
    ensures multiset(r) <= multiset(students)
    ensures forall s :: multiset(r)[s] == (if NameMatches(s, term) then multiset(students)[s] else 0)
  {
    FilterSubMultiset(students, (s: Student) => NameMatches(s, term));
    FilterCounts(students, (s: Student) => NameMatches(s, term));
    Filter(students, (s: Student) => NameMatches(s, term))
  }

  /** The table keeps the list's order: the search distributes over concatenation, one student at a time. */
  lemma FilteredStudentsAppend(a: seq<Student>, b: seq<Student>, s: Student, term: string)
    ensures FilteredStudents(a + b, term) == FilteredStudents(a, term) + FilteredStudents(b, term)
    ensures FilteredStudents([s], term) == if NameMatches(s, term) then [s] else []
  {
    FilterAppend(a, b, (s: Student) => NameMatches(s, term));
    assert [s][1..] == [];
  }

  /** An empty search term lists every student, in order. */
  lemma EmptyTermKeepsAll(students: seq<Student>)
    ensures FilteredStudents(students, "") == students
  {
    forall i | 0 <= i < |students| ensures NameMatches(students[i], "") {
      ContainsEmpty(Lower(students[i].name));
    }
    FilterKeepsAll(students, (s: Student) => NameMatches(s, ""));
  }

  /** Lower-casing twice is lower-casing once. */
  lemma LowerIdempotent(s: string)
    ensures Lower(Lower(s)) == Lower(s)
  {
    assert forall i :: 0 <= i < |s| ==> LowerChar(LowerChar(s[i])) == LowerChar(s[i]);
  }

  /** Two predicates that agree on every element filter alike. */
  lemma {:induction false} FilterAgrees<T(!new)>(s: seq<T>, p: T -> bool, q: T -> bool)
    requires forall i :: 0 <= i < |s| ==> p(s[i]) == q(s[i])
    ensures Filter(s, p) == Filter(s, q)
  {
    if |s| > 0 {
      FilterAgrees(s[1..], p, q);
    }
  }

  /** The search ignores case: a term and its lower-cased form list the same students. */
  lemma SearchIgnoresCase(students: seq<Student>, term: string)
    ensures FilteredStudents(students, term) == FilteredStudents(students, Lower(term))
  {
    LowerIdempotent(term);
    FilterAgrees(students, (s: Student) => NameMatches(s, term), (s: Student) => NameMatches(s, Lower(term)));
  }

  /**
   * `getStatusStyle`: grey without a status, one colour per status. The
   * style determines the status: reading it back gives the status it was
   * drawn for.
   */
  function StatusStyle(status: Option<PaymentStatus>): (t: string)
    ensures StyleStatus(t) == status
  {
    match status
    case None =>
      var t := "bg-gray-500 text-white";
      assert t[3] == 'g' && t[5] == 'a';
      t
    case Some(Paid) => "bg-green-500 text-green-900"
    case Some(Pending) =>
      var t := "bg-yellow-500 text-yellow-900";
      assert t[3] == 'y';
      t
    case Some(Overdue) =>
      var t := "bg-red-600 text-red-100";
      assert t[3] == 'r';
      t
    case Some(BoletoGerado) =>
      var t := "bg-cyan-500 text-cyan-900";
      assert t[3] == 'c';
      t
  }

  /** Reads the status back from a badge style. */
  function StyleStatus(style: string): Option<PaymentStatus> {
    if style == "bg-green-500 text-green-900" then Some(Paid)
    else if style == "bg-yellow-500 text-yellow-900" then Some(Pending)
    else if style == "bg-red-600 text-red-100" then Some(Overdue)
    else if style == "bg-cyan-500 text-cyan-900" then Some(BoletoGerado)
    else None
  }

  /** Hence the five styles are pairwise different. */
  lemma StatusStylesDistinct(a: Option<PaymentStatus>, b: Option<PaymentStatus>)
    ensures StatusStyle(a) == StatusStyle(b) <==> a == b
  {
  }

  /** The status of the newest payment (`payments[0]`), if any. */
  function LastPaymentStatus(s: Student): (r: Option<PaymentStatus>)
    ensures r.None? <==> |s.payments| == 0
    ensures r.Some? ==> r.value == s.payments[0].status
  {
    if |s.payments| == 0 then None else Some(s.payments[0].status)
  }

  /** The badge text: the status, or `Nenhum`. */
  function StatusText(status: Option<PaymentStatus>): (t: string)
    ensures |t| > 0
    ensures status.None? ==> t == "Nenhum"
    ensures status.Some? ==> t == StatusLabel(status.value)
  {
    match status
    case None => "Nenhum"
    case Some(st) => StatusLabel(st)
  }

  /** The badge text tells the statuses apart, and `Nenhum` from all of them. */
  lemma StatusTextDistinct(a: Option<PaymentStatus>, b: Option<PaymentStatus>)
    ensures StatusText(a) == StatusText(b) <==> a == b
  {
    if a != b {
      var ta, tb := StatusText(a), StatusText(b);
      if |ta| == |tb| {
        assert ta[0] != tb[0];
      }
    }
  }

  /** A newly recorded payment becomes the one the badge shows. */
  lemma BadgeShowsNewPayment(students: seq<Student>, id: string, payment: Payment, i: nat)
    requires i < |students| && students[i].id == id
    ensures LastPaymentStatus(AddPaymentById(students, id, payment)[i]) == Some(payment.status)
  {
  }

  /**
   * JavaScript's `%` on numbers that are integers or NaN (`None`): NaN when
   * either side is NaN or the divisor is 0; otherwise truncated, with the
   * sign of the dividend.
   */
  function JsRem(a: Option<int>, b: Option<int>): (r: Option<int>)
    ensures r.None? <==> a.None? || b.None? || b.value == 0
    ensures r.Some? ==> (a.value >= 0 ==> 0 <= r.value) && (a.value <= 0 ==> r.value <= 0)
    ensures r.Some? && b.value > 0 ==> -b.value < r.value < b.value
    ensures r.Some? && b.value < 0 ==> b.value < r.value < -b.value
    ensures r.Some? && a.value >= 0 && b.value > 0 ==> r.value == a.value % b.value
  {
    if a.None? || b.None? || b.value == 0 then None
    else
      var m := if a.value < 0 then -a.value else a.value;
      var d := if b.value < 0 then -b.value else b.value;
      Some(if a.value < 0 then -(m % d) else m % d)
  }

  /**
   * The count shown as `x/y` and used for the progress bar: classes into the
   * belt, modulo the stripe threshold. It is a number exactly when both
   * thresholds are present and non-zero; for a non-negative class count and
   * a positive stripe threshold it is below that threshold.
   */
  function StripeProgress(classesAttended: int, config: GradConfig): (r: Option<int>)
    ensures r.None? <==>
      config.classesForBelt.None? || config.classesForBelt.value == 0
      || config.classesForStripe.None? || config.classesForStripe.value == 0
    ensures classesAttended >= 0 && r.Some? && config.classesForStripe.value > 0 ==>
      0 <= r.value < config.classesForStripe.value
  {
    JsRem(JsRem(Some(classesAttended), config.classesForBelt), config.classesForStripe)
  }

  /** The progress of a student under the current table, with the `{30, 150}` fallback for a belt without an entry. */
  function StudentProgress(s: Student, settings: GraduationSettings): (r: Option<int>)
    ensures BeltKey(s.belt) in settings ==> r == StripeProgress(s.classesAttended, settings[BeltKey(s.belt)])
    ensures BeltKey(s.belt) !in settings ==> r == StripeProgress(s.classesAttended, DefaultConfig)
  {
    StripeProgress(s.classesAttended, ConfigFor(settings, BeltKey(s.belt)))
  }

  /** Under `{30, 150}` the count is the class count modulo 30, since 30 divides 150. */
  lemma DefaultProgressIsModThirty(classesAttended: nat)
    ensures StripeProgress(classesAttended, DefaultConfig) == Some(classesAttended % 30)
  {
    var q := classesAttended / 150;
    var r := classesAttended % 150;
    assert classesAttended == 30 * (5 * q) + r;
    assert r % 30 == classesAttended % 30;
  }

  /** What the refresh effect leaves selected, and whether the detail dialog stays open. */
  datatype Selection = Selection(selected: Option<Student>, detailOpen: bool)

  /** The refresh effect: reload the selected student by id, or clear it and close the dialog when it is gone. */
  function RefreshSelection(students: seq<Student>, sel: Selection): (r: Selection)
    ensures sel.selected.None? ==> r == sel
    ensures sel.selected.Some? && r.selected.Some? ==>
              && r.selected.value in students
              && r.selected.value.id == sel.selected.value.id && r.detailOpen == sel.detailOpen
    ensures sel.selected.Some? && r.selected.None? ==>
              && !r.detailOpen
              && forall i :: 0 <= i < |students| ==> students[i].id != sel.selected.value.id
  {
    match sel.selected
    case None => sel
    case Some(s) =>
      match FindStudent(students, s.id)
      case Some(u) => Selection(Some(u), sel.detailOpen)
      case None => Selection(None, false)
  }

  /** Running the effect again on the same list changes nothing further. */
  lemma RefreshIsStable(students: seq<Student>, sel: Selection)
    ensures RefreshSelection(students, RefreshSelection(students, sel)) == RefreshSelection(students, sel)
  {
  }
}
