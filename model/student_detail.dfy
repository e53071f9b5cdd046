/**
 * The student detail dialog (components/StudentDetail.tsx): the classes
 * counted towards the current belt, the stripe progress shown from them,
 * and the two action buttons, which act on this student's id. The
 * component's own copy of `getBeltKey` builds the same `name-type` key as
 * `BeltKey`.
 */
module StudentDetailPage {
  import opened Types
  import opened Constants
  import opened Students
  import opened GraduationSettingsStore
  import opened StudentListPage

  /**
   * `classesForCurrentBelt`: the class count modulo the belt threshold, NaN
   * (`None`) when that is missing or 0, and below a positive threshold.
   */
  function ClassesForCurrentBelt(s: Student, settings: GraduationSettings): (r: Option<int>)
    ensures var c := ConfigFor(settings, BeltKey(s.belt)).classesForBelt;
      && (r.None? <==> c.None? || c.value == 0)
      && (r.Some? && s.classesAttended >= 0 && c.value > 0 ==> 0 <= r.value < c.value)
  {
    JsRem(Some(s.classesAttended), ConfigFor(settings, BeltKey(s.belt)).classesForBelt)
  }

  /** The `x / y aulas` count: classes into the belt modulo the stripe threshold; NaN when either threshold is missing or 0. */
  function DetailProgress(s: Student, settings: GraduationSettings): (r: Option<int>)
    ensures var c := ConfigFor(settings, BeltKey(s.belt));
      r.None? <==> (c.classesForBelt.None? || c.classesForBelt.value == 0
                    || c.classesForStripe.None? || c.classesForStripe.value == 0)
  {
    JsRem(ClassesForCurrentBelt(s, settings), ConfigFor(settings, BeltKey(s.belt)).classesForStripe)
  }

  /**
   * The dialog and the table row show the same count for the same student:
   * the dialog's two-step computation is the table's, by definition.
   */
  lemma DetailAgreesWithList(s: Student, settings: GraduationSettings)
    ensures DetailProgress(s, settings) == StudentProgress(s, settings)
  {
  }

  /** "Registrar Aula": logs a class for this student's id. */
  method HandleLogClass(store: StudentStore, student: Student)
    modifies store
    ensures store.students == LogClassById(old(store.students), student.id)
  {
    store.LogClassForStudent(student.id);
  }

  /** "Promover Aluno": promotes this student's id. */
  method HandlePromote(store: StudentStore, student: Student) returns (r: PromoteResult)
    modifies store
    ensures r == PromoteOutcome(old(store.students), student.id)
    ensures store.students == PromoteById(old(store.students), student.id)
  {
    r := store.PromoteStudent(student.id);
  }
}
