/**
 * The enrolment and edit form (components/StudentForm.tsx): the belt
 * category derived from the typed age, the belts offered for it, the reset
 * of the selection on every age edit, and the submit validation that ends
 * in exactly one of add or update.
 */
module StudentFormPage {
  import opened Types
  import opened Seqs
  import opened Constants
  import opened Students

  /**
   * The form fields. `age` is `parseInt` of the typed text (`None` for NaN);
   * `startDate` is the chosen date as a timestamp.
   */
  datatype Form = Form(
    name: string,
    age: Option<int>,
    phone: string,
    address: string,
    startDate: int,
    selectedBeltName: string,
    isActive: bool)

  /** The age is a positive number: the first submit check. */
  predicate ValidAge(age: Option<int>) {
    age.Some? && age.value > 0
  }

  /** The category shown while typing: Kid exactly for a readable age under 16. */
  function DerivedBeltType(age: Option<int>): (t: BeltType)
    ensures t == Kid <==> age.Some? && age.value < 16
  {
    if age.Some? && age.value < 16 then Kid else Adult
  }

  /** `availableBelts`: the catalog entries of the derived category, in catalog order. */
  function AvailableBelts(age: Option<int>): (r: seq<Belt>)
    ensures forall i :: 0 <= i < |r| ==> r[i].beltType == DerivedBeltType(age)
  {
    OfCategory(Belts, DerivedBeltType(age))
  }

  /** The entries of `catalog` of category `t`, in catalog order. */
  function OfCategory(catalog: seq<Belt>, t: BeltType): (r: seq<Belt>)
    ensures forall i :: 0 <= i < |r| ==> r[i].beltType == t
  {
    var r := Filter(catalog, OfType(t));
    assert forall i :: 0 <= i < |r| ==> r[i] in r;
    r
  }

  /** Kids are offered the 13 Kid belts and everyone else the 8 Adult belts. */
  lemma AvailableBeltsByCategory(age: Option<int>)
    ensures DerivedBeltType(age) == Kid ==> AvailableBelts(age) == Belts[..FirstAdult]
    ensures DerivedBeltType(age) == Adult ==> AvailableBelts(age) == Belts[FirstAdult..]
  {
    CatalogShape();
    if DerivedBeltType(age) == Kid {
      FilterIsPrefix(Belts, OfType(DerivedBeltType(age)), FirstAdult);
    } else {
      FilterIsSuffix(Belts, OfType(DerivedBeltType(age)), FirstAdult);
    }
  }

  /** What a submit does. */
  datatype SubmitOutcome =
    | InvalidInput
    | InvalidBelt
    | UpdateExisting(id: string, patch: Patch)
    | AddNew(data: NewStudent)

  /** The fields the form writes into an existing record. */
  function FormPatch(form: Form, age: int, belt: Belt): Patch {
    Patch(None, Some(form.name), Some(age), Some(belt), None, None, Some(form.startDate),
      Some(form.phone), Some(form.address), None, Some(form.isActive), None)
  }

  /**
   * `handleSubmit`: `editing` is the student being edited, if any. The name
   * must be non-empty and the age positive; the selected name must be a
   * catalog belt of the age's category.
   */
  function Submit(form: Form, editing: Option<Student>): (o: SubmitOutcome)
    ensures o == InvalidInput <==> form.name == "" || !ValidAge(form.age)
    ensures o == InvalidBelt <==>
      form.name != "" && ValidAge(form.age) && FindBelt(form.selectedBeltName, DerivedBeltType(form.age)).None?
    ensures o.UpdateExisting? <==> editing.Some? && o != InvalidInput && o != InvalidBelt
    ensures o.UpdateExisting? ==>
              && o.id == editing.value.id && o.patch.id.None? && o.patch.stripes.None?
              && o.patch.payments.None? && o.patch.classesAttended.None?
    ensures o.UpdateExisting? ==>
              && o.patch.name == Some(form.name) && o.patch.age == form.age
              && o.patch.phone == Some(form.phone) && o.patch.address == Some(form.address)
              && o.patch.startDate == Some(form.startDate) && o.patch.isActive == Some(form.isActive)
              && o.patch.promotionHistory.None?
    ensures o.UpdateExisting? ==>
              && o.patch.belt.Some? && o.patch.belt.value in Belts
              && o.patch.belt.value.name == form.selectedBeltName
              && (o.patch.belt.value.beltType == Kid <==> form.age.value < 16)
    ensures o.AddNew? ==>
              && o.data.belt in Belts && o.data.belt.name == form.selectedBeltName
              && (o.data.belt.beltType == Kid <==> form.age.value < 16)
              && o.data.name == form.name && o.data.age == form.age.value && o.data.promotionHistory.None?
              && o.data.phone == form.phone && o.data.address == form.address
              && o.data.startDate == form.startDate && o.data.isActive == form.isActive
  {
    if form.name == "" || !ValidAge(form.age) then InvalidInput
    else
      var age := form.age.value;
      var finalBeltType := if age < 16 then Kid else Adult;
      match FindBelt(form.selectedBeltName, finalBeltType)
      case None => InvalidBelt
      case Some(belt) =>
        if editing.Some? then UpdateExisting(editing.value.id, FormPatch(form, age, belt))
        else AddNew(NewStudent(form.name, age, belt, form.startDate, form.phone, form.address, form.isActive, None))
  }

  /** The belt drop-down built from `belts` has an option named `name`. */
  predicate Offers(belts: seq<Belt>, name: string) {
    exists b :: b in belts && b.name == name
  }

  /** With a valid name and age, the belt check accepts exactly the names the form offers. */
  lemma OfferedIffAccepted(form: Form, editing: Option<Student>)
    requires form.name != "" && ValidAge(form.age)
    ensures Submit(form, editing) != InvalidBelt <==> Offers(AvailableBelts(form.age), form.selectedBeltName)
  {
    FoundIffOffered(form.age, form.selectedBeltName);
  }

  /** `findBelt` finds a name in the age's category exactly when the drop-down offers it. */
  lemma FoundIffOffered(age: Option<int>, name: string)
    ensures FindBelt(name, DerivedBeltType(age)).Some? <==> Offers(AvailableBelts(age), name)
  {
    FindBeltIffListed(name, DerivedBeltType(age));
    OfferedNames(Belts, DerivedBeltType(age), name);
  }

  /** A name is offered for category `t` exactly when some entry of that category has it. */
  lemma OfferedNames(catalog: seq<Belt>, t: BeltType, name: string)
    ensures Offers(Filter(catalog, OfType(t)), name) <==>
      exists b :: b in catalog && b.name == name && b.beltType == t
  {
    if exists b :: b in catalog && b.name == name && b.beltType == t {
      var b :| b in catalog && b.name == name && b.beltType == t;
      assert b in Filter(catalog, OfType(t));
    }
  }

  /** The age field's `onChange`: store the new age and reset the selection to `Branca`, whatever the age. */
  function AgeEdited(form: Form, age: Option<int>): (f: Form)
    ensures f.age == age && f.selectedBeltName == "Branca"
    ensures f.(age := form.age, selectedBeltName := form.selectedBeltName) == form
  {
    form.(age := age, selectedBeltName := "Branca")
  }

  /** After an age edit the selection is a belt of the new category, so the belt check passes. */
  lemma AgeEditKeepsSelectionValid(form: Form, age: Option<int>, editing: Option<Student>)
    requires form.name != "" && ValidAge(age)
    ensures Submit(AgeEdited(form, age), editing) != InvalidBelt
    ensures Submit(AgeEdited(form, age), editing) != InvalidInput
  {
    CategoriesStartWhite();
    if DerivedBeltType(age) == Kid {
      FindBeltFindsCatalogEntry(0);
    } else {
      FindBeltFindsCatalogEntry(FirstAdult);
    }
  }

  /** Submitting the form: rejected input changes nothing, otherwise exactly one add or update. */
  method SubmitForm(store: StudentStore, form: Form, editing: Option<Student>, freshId: string) returns (o: SubmitOutcome)
    modifies store
    ensures o == Submit(form, editing)
    ensures o.UpdateExisting? ==> store.students == UpdateById(old(store.students), o.id, o.patch)
    ensures o.AddNew? ==> store.students == old(store.students) + [NewRecord(o.data, freshId)]
    ensures o == InvalidInput || o == InvalidBelt ==> store.students == old(store.students)
  {
    o := Submit(form, editing);
    match o
    case UpdateExisting(id, patch) => store.UpdateStudent(id, patch);
    case AddNew(data) => store.AddStudent(data, freshId);
    case _ =>
  }
}
