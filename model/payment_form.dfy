/**
 * The payment dialog (components/PaymentForm.tsx): a plan tab that records
 * a payment of a chosen plan, amount and status, and a credit-card tab that
 * records a settled payment once the card fields are filled in.
 *
 * The amount field is text; it is modelled by what `parseFloat` reads from
 * it, `None` standing for `NaN`. `String(price)` reads back as `price`.
 * The current time is the parameter `now`, the new payment's id `freshId`.
 */
module PaymentFormPage {
  import opened Types
  import opened Seqs
  import opened Students

  /** The dialog's fields. */
  datatype FormFields = FormFields(
    amount: Option<real>,
    plan: string,
    status: PaymentStatus,
    cardName: string,
    cardNumber: string,
    expiryDate: string,
    cvv: string)

  /** The fields as first rendered: amount `'0.00'`, no plan, status Paid, empty card fields. */
  const BlankForm: FormFields := FormFields(Some(0.0), "", Paid, "", "", "", "")

  /** The effect on the plan list: with plans, the first plan's name and price are selected. */
  function WithPlans(f: FormFields, plans: seq<Plan>): (r: FormFields)
    ensures |plans| > 0 ==> r.plan == plans[0].name && r.amount == Some(plans[0].price)
    ensures |plans| == 0 ==> r == f
    ensures r.(plan := f.plan, amount := f.amount) == f
  {
    if |plans| > 0 then f.(plan := plans[0].name, amount := Some(plans[0].price)) else f
  }

  /** `handlePlanChange`: the name is always taken; the amount follows the first plan of that name, if any. */
  function ChoosePlan(f: FormFields, plans: seq<Plan>, name: string): (r: FormFields)
    ensures r.plan == name
    ensures r.amount != f.amount ==> exists p :: p in plans && p.name == name && r.amount == Some(p.price)
    ensures (forall p :: p in plans ==> p.name != name) ==> r.amount == f.amount
    ensures r.(plan := f.plan, amount := f.amount) == f
  {
    match FindFirst(plans, (p: Plan) => p.name == name)
    case Some(p) => f.(plan := name, amount := Some(p.price))
    case None => f.(plan := name)
  }

  /** The plan chosen is the first of that name: a later plan with the same name never sets the amount. */
  lemma ChoosePlanTakesFirst(f: FormFields, plans: seq<Plan>, name: string, k: nat)
    requires k < |plans| && plans[k].name == name
    requires forall j :: 0 <= j < k ==> plans[j].name != name
    ensures ChoosePlan(f, plans, name).amount == Some(plans[k].price)
  {
    FindFirstIsFirst(plans, (p: Plan) => p.name == name, k);
  }

  /** The plan submit check: a student, and an amount that is a number and not negative. */
  predicate PlanInputValid(f: FormFields, studentId: string) {
    studentId != "" && f.amount.Some? && f.amount.value >= 0.0
  }

  /** `handlePlanSubmit`: the payment it hands to `addPaymentForStudent`, or `None` after the alert. */
  function PlanPayment(f: FormFields, studentId: string, now: int): (r: Option<NewPayment>)
    ensures r.None? <==> !PlanInputValid(f, studentId)
    ensures r.Some? ==> r.value.amount >= 0.0 && r.value.amount == f.amount.value
    ensures r.Some? ==> r.value.plan == f.plan && r.value.status == f.status && r.value.date == now
  {
    if !PlanInputValid(f, studentId) then None
    else Some(NewPayment(now, f.amount.value, f.status, f.plan, None))
  }

  /** The card check: every card field filled in. */
  predicate CardFieldsFilled(f: FormFields) {
    f.cardName != "" && f.cardNumber != "" && f.expiryDate != "" && f.cvv != ""
  }

  /** What the card tab records as written: the amount is passed on unchecked, `NaN` included. */
  datatype CardCharge = CardCharge(date: int, amount: Option<real>, status: PaymentStatus, plan: string)

  /** `handleCreditCardSubmit` as written. */
  function CardChargeAsWritten(f: FormFields, now: int): (r: Option<CardCharge>)
    ensures r.None? <==> !CardFieldsFilled(f)
    ensures r.Some? ==> r.value.status == Paid && r.value.amount == f.amount && r.value.plan == f.plan
  {
    if !CardFieldsFilled(f) then None else Some(CardCharge(now, f.amount, Paid, f.plan))
  }

  /** A filled-in card form with an unreadable amount records a settled payment of `NaN`. */
  lemma CardAcceptsUnreadableAmount(now: int)
    ensures var f := FormFields(None, "Mensal", Paid, "Ana", "4111", "12/30", "123");
      CardChargeAsWritten(f, now) == Some(CardCharge(now, None, Paid, "Mensal"))
  {
  }

  /** A filled-in card form with a negative amount records a settled negative payment. */
  lemma CardAcceptsNegativeAmount(now: int)
    ensures var f := FormFields(Some(-150.0), "Mensal", Paid, "Ana", "4111", "12/30", "123");
      CardChargeAsWritten(f, now) == Some(CardCharge(now, Some(-150.0), Paid, "Mensal"))
  {
  }

  /** The card submit with the plan tab's amount check added. */
  function CardPayment(f: FormFields, now: int): (r: Option<NewPayment>)
    ensures r.None? <==> !CardFieldsFilled(f) || f.amount.None? || f.amount.value < 0.0
    ensures r.Some? ==> r.value.status == Paid && r.value.amount >= 0.0 && r.value.amount == f.amount.value
    ensures r.Some? ==> r.value.plan == f.plan && r.value.date == now
  {
    if !CardFieldsFilled(f) || f.amount.None? || f.amount.value < 0.0 then None
    else Some(NewPayment(now, f.amount.value, Paid, f.plan, None))
  }

  /** Where the written card submit records a readable, non-negative amount, the corrected one records the same. */
  lemma CardPaymentAgreesWhenAmountValid(f: FormFields, now: int)
    requires f.amount.Some? && f.amount.value >= 0.0
    ensures CardChargeAsWritten(f, now).Some? <==> CardPayment(f, now).Some?
    ensures CardPayment(f, now).Some? ==>
              var c := CardChargeAsWritten(f, now).value;
              var p := CardPayment(f, now).value;
              Some(p.amount) == c.amount && p.status == c.status && p.plan == c.plan && p.date == c.date
  {
  }

  /** The dialog, its fields updated by its handlers. */
  class PaymentDialog {
    var fields: FormFields

    /** The first render followed by the plan effect. */
    constructor(plans: seq<Plan>)
      ensures fields == WithPlans(BlankForm, plans)
    {
      fields := WithPlans(BlankForm, plans);
    }

    method ChoosePlanByName(plans: seq<Plan>, name: string)
      modifies this
      ensures fields == ChoosePlan(old(fields), plans, name)
    {
      fields := ChoosePlan(fields, plans, name);
    }

    /** `handlePlanSubmit`: one payment added to the student, or nothing at all. */
    method SubmitPlan(store: StudentStore, studentId: string, now: int, freshId: string) returns (accepted: bool)
      modifies store
      ensures accepted <==> PlanInputValid(fields, studentId)
      ensures accepted ==>
                store.students == AddPaymentById(old(store.students), studentId,
                                                 WithId(PlanPayment(fields, studentId, now).value, freshId))
      ensures !accepted ==> unchanged(store)
    {
      var p := PlanPayment(fields, studentId, now);
      if p.None? {
        return false;
      }
      store.AddPaymentForStudent(studentId, p.value, freshId);
      accepted := true;
    }

    /** The card submit, with the amount check: one settled payment added, or nothing at all. */
    method SubmitCard(store: StudentStore, studentId: string, now: int, freshId: string) returns (accepted: bool)
      modifies store
      ensures accepted <==> CardPayment(fields, now).Some?
      ensures accepted ==>
                store.students == AddPaymentById(old(store.students), studentId,
                                                 WithId(CardPayment(fields, now).value, freshId))
      ensures !accepted ==> unchanged(store)
    {
      var p := CardPayment(fields, now);
      if p.None? {
        return false;
      }
      store.AddPaymentForStudent(studentId, p.value, freshId);
      accepted := true;
    }
  }
}
