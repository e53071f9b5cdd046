/**
 * The student repository (hooks/useStudents.tsx): the provider's list of
 * students and the operations that replace it — enrol, edit by id, log a
 * class, promote, record a payment — plus the wholesale replacement a
 * backup import performs.
 */
module Students {
  import opened Types
  import opened Constants
  import opened Seqs

  /** What `addStudent` receives: a student without id, payments, classes and stripes. */
  datatype NewStudent = NewStudent(
    name: string,
    age: int,
    belt: Belt,
    startDate: int,
    phone: string,
    address: string,
    isActive: bool,
    promotionHistory: Option<seq<Promotion>>)

  /** A `Partial<Student>`: each field is either supplied or absent. */
  datatype Patch = Patch(
    id: Option<string>,
    name: Option<string>,
    age: Option<int>,
    belt: Option<Belt>,
    stripes: Option<Stripe>,
    classesAttended: Option<int>,
    startDate: Option<int>,
    phone: Option<string>,
    address: Option<string>,
    payments: Option<seq<Payment>>,
    isActive: Option<bool>,
    promotionHistory: Option<Option<seq<Promotion>>>)

  /** What `addPaymentForStudent` receives: a payment without id. */
  datatype NewPayment = NewPayment(date: int, amount: real, status: PaymentStatus, plan: string, dueDate: Option<int>)

  /** `{ ...s, ...p }`. */
  function ApplyPatch(s: Student, p: Patch): Student {
    Student(
      Or(p.id, s.id), Or(p.name, s.name), Or(p.age, s.age), Or(p.belt, s.belt),
      Or(p.stripes, s.stripes), Or(p.classesAttended, s.classesAttended),
      Or(p.startDate, s.startDate), Or(p.phone, s.phone), Or(p.address, s.address),
      Or(p.payments, s.payments), Or(p.isActive, s.isActive),
      Or(p.promotionHistory, s.promotionHistory))
  }

  /** The patch `promoteStudent` hands to `updateStudent`: belt and stripes only. */
  function BeltPatch(belt: Belt, stripes: Stripe): Patch {
    Patch(None, None, None, Some(belt), Some(stripes), None, None, None, None, None, None, None)
  }

  /** The record `addStudent` builds. */
  function NewRecord(data: NewStudent, id: string): (s: Student)
    ensures s.id == id && s.payments == [] && s.classesAttended == 0 && s.stripes == 0
  {
    Student(id, data.name, data.age, data.belt, 0, 0, data.startDate, data.phone,
      data.address, [], data.isActive, data.promotionHistory)
  }

  /** `prev.map(s => s.id === id ? { ...s, ...patch } : s)`. */
  function UpdateById(students: seq<Student>, id: string, p: Patch): (r: seq<Student>)
    ensures |r| == |students|
    ensures forall i :: 0 <= i < |r| && students[i].id != id ==> r[i] == students[i]
    ensures forall i :: 0 <= i < |r| && students[i].id == id ==> r[i] == ApplyPatch(students[i], p)
  {
    seq(|students|, i requires 0 <= i < |students| =>
      if students[i].id == id then ApplyPatch(students[i], p) else students[i])
  }

  /** The patch with no field supplied. */
  const EmptyPatch: Patch := Patch(None, None, None, None, None, None, None, None, None, None, None, None)

  /**
   * A spread overwrites exactly the supplied fields: an absent field keeps
   * its value, a supplied one takes the patch's value.
   */
  lemma PatchOverwritesOnlySupplied(s: Student, p: Patch)
    ensures ApplyPatch(s, EmptyPatch) == s
    ensures p.id.None? ==> ApplyPatch(s, p).id == s.id
    ensures p.id.Some? ==> ApplyPatch(s, p).id == p.id.value
    ensures p.name.None? ==> ApplyPatch(s, p).name == s.name
    ensures p.name.Some? ==> ApplyPatch(s, p).name == p.name.value
    ensures p.age.None? ==> ApplyPatch(s, p).age == s.age
    ensures p.age.Some? ==> ApplyPatch(s, p).age == p.age.value
    ensures p.belt.None? ==> ApplyPatch(s, p).belt == s.belt
    ensures p.belt.Some? ==> ApplyPatch(s, p).belt == p.belt.value
    ensures p.stripes.None? ==> ApplyPatch(s, p).stripes == s.stripes
    ensures p.stripes.Some? ==> ApplyPatch(s, p).stripes == p.stripes.value
    ensures p.classesAttended.None? ==> ApplyPatch(s, p).classesAttended == s.classesAttended
    ensures p.classesAttended.Some? ==> ApplyPatch(s, p).classesAttended == p.classesAttended.value
    ensures p.startDate.None? ==> ApplyPatch(s, p).startDate == s.startDate
    ensures p.startDate.Some? ==> ApplyPatch(s, p).startDate == p.startDate.value
    ensures p.phone.None? ==> ApplyPatch(s, p).phone == s.phone
    ensures p.phone.Some? ==> ApplyPatch(s, p).phone == p.phone.value
    ensures p.address.None? ==> ApplyPatch(s, p).address == s.address
    ensures p.address.Some? ==> ApplyPatch(s, p).address == p.address.value
    ensures p.payments.None? ==> ApplyPatch(s, p).payments == s.payments
    ensures p.payments.Some? ==> ApplyPatch(s, p).payments == p.payments.value
    ensures p.isActive.None? ==> ApplyPatch(s, p).isActive == s.isActive
    ensures p.isActive.Some? ==> ApplyPatch(s, p).isActive == p.isActive.value
    ensures p.promotionHistory.None? ==> ApplyPatch(s, p).promotionHistory == s.promotionHistory
    ensures p.promotionHistory.Some? ==> ApplyPatch(s, p).promotionHistory == p.promotionHistory.value
  {
  }

  /**
   * Editing by id with the empty patch changes nothing, and applying the same
   * patch twice is the same as applying it once when it keeps the id.
   */
  lemma UpdateByIdIdempotent(students: seq<Student>, id: string, p: Patch)
    requires p.id.None? || p.id == Some(id)
    ensures UpdateById(students, id, EmptyPatch) == students
    ensures UpdateById(UpdateById(students, id, p), id, p) == UpdateById(students, id, p)
  {
    var once := UpdateById(students, id, p);
    forall i | 0 <= i < |students| ensures UpdateById(once, id, p)[i] == once[i] {
      if students[i].id == id {
        assert once[i].id == id;
      }
    }
    forall i | 0 <= i < |students| ensures UpdateById(students, id, EmptyPatch)[i] == students[i] {
      PatchOverwritesOnlySupplied(students[i], p);
    }
  }

  function LogClass(s: Student): Student {
    s.(classesAttended := s.classesAttended + 1)
  }

  /** Each student with the id has one more class and is otherwise unchanged; nobody else changes. */
  function LogClassById(students: seq<Student>, id: string): (r: seq<Student>)
    ensures |r| == |students|
    ensures forall i :: 0 <= i < |r| && students[i].id != id ==> r[i] == students[i]
    ensures forall i :: 0 <= i < |r| && students[i].id == id ==>
      r[i].classesAttended == students[i].classesAttended + 1
      && r[i].(classesAttended := students[i].classesAttended) == students[i]
  {
    seq(|students|, i requires 0 <= i < |students| =>
      if students[i].id == id then LogClass(students[i]) else students[i])
  }

  function WithId(p: NewPayment, id: string): Payment {
    Payment(id, p.date, p.amount, p.status, p.plan, p.dueDate)
  }

  /** Each student with the id gets `payment` in front of its payments; nobody else changes. */
  function AddPaymentById(students: seq<Student>, id: string, payment: Payment): (r: seq<Student>)
    ensures |r| == |students|
    ensures forall i :: 0 <= i < |r| && students[i].id != id ==> r[i] == students[i]
    ensures forall i :: 0 <= i < |r| && students[i].id == id ==>
      |r[i].payments| == |students[i].payments| + 1 && r[i].payments[0] == payment
      && r[i].payments[1..] == students[i].payments
      && r[i].(payments := students[i].payments) == students[i]
  {
    seq(|students|, i requires 0 <= i < |students| =>
      if students[i].id == id then students[i].(payments := [payment] + students[i].payments)
      else students[i])
  }

  /** `students.find(s => s.id === id)`. */
  function FindStudent(students: seq<Student>, id: string): (r: Option<Student>)
    ensures r.Some? ==> r.value in students && r.value.id == id
    ensures r.None? <==> forall i :: 0 <= i < |students| ==> students[i].id != id
  {
    FindFirst(students, (s: Student) => s.id == id)
  }

  /** What one promotion step does to a (belt, stripes) pair. */
  datatype Step = Promoted(belt: Belt, stripes: Stripe) | AtHighestBelt

  /** The catalog entry after `b`'s position (position -1 when `b` is not listed), if any. */
  function NextCatalogBelt(b: Belt): (r: Option<Belt>)
    ensures r.Some? ==> r.value in Belts
  {
    var next := CatalogIndex(b) + 1;
    if next < |Belts| then Some(Belts[next]) else None
  }

  /**
   * The promotion rule: below four stripes add one; otherwise move to the
   * next catalog entry with stripes reset when it has the same type, and
   * reject when it does not (or there is none).
   */
  function NextRank(b: Belt, stripes: Stripe): (r: Step)
    ensures r.Promoted? && r.belt != b ==> r.belt in Belts && r.belt.beltType == b.beltType && r.stripes == 0
  {
    if stripes < 4 then Promoted(b, stripes + 1)
    else
      match NextCatalogBelt(b)
      case Some(n) => if n.beltType == b.beltType then Promoted(n, 0) else AtHighestBelt
      case None => AtHighestBelt
  }

  /** What `promoteStudent` reports. */
  datatype PromoteResult = StudentNotFound | Rejected | Done(belt: Belt, stripes: Stripe)

  /**
   * The outcome of promoting student `id` in `students`, decided from the
   * first match: not found exactly when nobody has the id; rejected only at
   * four or more stripes; otherwise one more stripe, or the next catalog belt
   * of the same category with none.
   */
  function PromoteOutcome(students: seq<Student>, id: string): (r: PromoteResult)
    ensures r == StudentNotFound <==> forall i :: 0 <= i < |students| ==> students[i].id != id
    ensures r == Rejected ==> FindStudent(students, id).value.stripes >= 4
    ensures r.Done? ==> var s := FindStudent(students, id).value;
      || (s.stripes < 4 && r.belt == s.belt && r.stripes == s.stripes + 1)
      || (s.stripes >= 4 && r.belt in Belts && r.belt.beltType == s.belt.beltType && r.stripes == 0)
  {
    match FindStudent(students, id)
    case None => StudentNotFound
    case Some(s) =>
      match NextRank(s.belt, s.stripes)
      case Promoted(b, k) => Done(b, k)
      case AtHighestBelt => Rejected
  }

  /** The list after promoting student `id`: only a `Done` outcome changes it, and only the id's records. */
  function PromoteById(students: seq<Student>, id: string): (r: seq<Student>)
    ensures |r| == |students|
    ensures !PromoteOutcome(students, id).Done? ==> r == students
    ensures forall i :: 0 <= i < |students| && students[i].id != id ==> r[i] == students[i]
  {
    match PromoteOutcome(students, id)
    case Done(b, k) => UpdateById(students, id, BeltPatch(b, k))
    case _ => students
  }

  /**
   * The branch-by-branch computation inside `promoteStudent` of the new
   * stripes and belt.
   */
  method ComputeRank(belt: Belt, stripes: Stripe) returns (r: Step)
    ensures r == NextRank(belt, stripes)
  {
    var newStripes := stripes;
    var newBelt := belt;
    if newStripes < 4 {
      newStripes := newStripes + 1;
    } else {
      var nextBelt := NextCatalogBelt(belt);
      if nextBelt.Some? && nextBelt.value.beltType == belt.beltType {
        newStripes := 0;
        newBelt := nextBelt.value;
      } else {
        return AtHighestBelt;
      }
    }
    r := Promoted(newBelt, newStripes);
  }

  /** A catalog belt's rank in stripe steps from the bottom of the catalog. */
  function RankValue(b: Belt, k: Stripe): int {
    CatalogIndex(b) * 5 + k
  }

  /**
   * Promoting a catalog entry: below four stripes one more stripe on the same
   * belt; from four stripes on, the next entry with no stripes, except at the
   * top of each category (Kid "Verde e Preta" and Adult "Vermelha"), where the
   * promotion is rejected.
   */
  lemma CatalogPromotion(i: nat, k: Stripe)
    requires i < |Belts|
    ensures k < 4 ==> NextRank(Belts[i], k) == Promoted(Belts[i], k + 1)
    ensures k >= 4 ==> (NextRank(Belts[i], k) == AtHighestBelt <==> i == FirstAdult - 1 || i == |Belts| - 1)
    ensures k >= 4 && i != FirstAdult - 1 && i != |Belts| - 1 ==>
      i + 1 < |Belts| && NextRank(Belts[i], k) == Promoted(Belts[i + 1], 0)
  {
    if k >= 4 {
      FindBeltFindsCatalogEntry(i);
      NextSameType(i);
      if i + 1 < |Belts| {
        NextRankAtFour(Belts[i], k, Belts[i + 1]);
      }
    }
  }

  /** An Adult black belt with four stripes becomes a red-and-black coral belt. */
  lemma PretaToCoral(b: Belt)
    requires b == Belt("Preta", "#000000", Adult)
    ensures NextRank(b, 4) == Promoted(Belt("Coral (Vermelha e Preta)", "#FF0000", Adult), 0)
  {
    assert Belts[17] == b && Belts[18] == Belt("Coral (Vermelha e Preta)", "#FF0000", Adult);
    CatalogPromotion(17, 4);
  }

  /** The top Kid belt cannot be promoted past four stripes ... */
  lemma TopKidRejected(b: Belt, k: Stripe)
    requires b == Belt("Verde e Preta", "#008000", Kid) && k >= 4
    ensures NextRank(b, k) == AtHighestBelt
  {
    assert Belts[12] == b;
    CatalogPromotion(12, k);
  }

  /** ... and neither can the top Adult belt. */
  lemma TopAdultRejected(b: Belt, k: Stripe)
    requires b == Belt("Vermelha", "#FF0000", Adult) && k >= 4
    ensures NextRank(b, k) == AtHighestBelt
  {
    assert Belts[20] == b;
    CatalogPromotion(20, k);
  }

  /**
   * A belt whose name and type are not in the catalog sits at position -1,
   * so from four stripes on a Kid belt restarts at Kid "Branca" ...
   */
  lemma UnlistedKidBeltRestarts(b: Belt, k: Stripe)
    requires CatalogIndex(b) == -1 && k >= 4 && b.beltType == Kid
    ensures NextRank(b, k) == Promoted(Belt("Branca", "#FFFFFF", Kid), 0)
  {
    UnlistedBeltNext(b);
    NextRankAtFour(b, k, Belt("Branca", "#FFFFFF", Kid));
  }

  /** ... and an Adult belt is rejected. */
  lemma UnlistedAdultBeltRejected(b: Belt, k: Stripe)
    requires CatalogIndex(b) == -1 && k >= 4 && b.beltType == Adult
    ensures NextRank(b, k) == AtHighestBelt
  {
    UnlistedBeltNext(b);
    NextRankAtFour(b, k, Belt("Branca", "#FFFFFF", Kid));
  }

  lemma UnlistedBeltNext(b: Belt)
    requires CatalogIndex(b) == -1
    ensures NextCatalogBelt(b) == Some(Belt("Branca", "#FFFFFF", Kid))
  {
    CategoriesStartWhite();
  }

  /** From four stripes on, the rank after `b` is decided by the catalog entry after it. */
  lemma NextRankAtFour(b: Belt, k: Stripe, n: Belt)
    requires NextCatalogBelt(b) == Some(n) && k >= 4
    ensures NextRank(b, k) == if n.beltType == b.beltType then Promoted(n, 0) else AtHighestBelt
  {
  }

  /** Every accepted promotion of a catalog belt with at most four stripes raises its rank by exactly one step. */
  lemma PromotionRaisesRankByOne(b: Belt, k: Stripe)
    requires b in Belts && k <= 4
    requires NextRank(b, k).Promoted?
    ensures NextRank(b, k).belt in Belts
    ensures RankValue(NextRank(b, k).belt, NextRank(b, k).stripes) == RankValue(b, k) + 1
  {
    var i :| 0 <= i < |Belts| && Belts[i] == b;
    FindBeltFindsCatalogEntry(i);
    CatalogPromotion(i, k);
    if k == 4 {
      FindBeltFindsCatalogEntry(i + 1);
    }
  }

  ghost predicate AllInCatalog(students: seq<Student>) {
    forall i :: 0 <= i < |students| ==> students[i].belt in Belts
  }

  /**
   * Promotion touches only belt and stripes, and only of the students with the
   * id; on success they all get the outcome's rank, and a list of catalog
   * belts stays a list of catalog belts.
   */
  lemma PromoteChangesOnlyRank(students: seq<Student>, id: string)
    ensures |PromoteById(students, id)| == |students|
    ensures forall i :: 0 <= i < |students| ==>
      PromoteById(students, id)[i].(belt := students[i].belt, stripes := students[i].stripes) == students[i]
    ensures forall i :: 0 <= i < |students| && students[i].id != id ==> PromoteById(students, id)[i] == students[i]
    ensures PromoteOutcome(students, id).Done? ==> forall i :: 0 <= i < |students| && students[i].id == id ==>
      PromoteById(students, id)[i].belt == PromoteOutcome(students, id).belt
      && PromoteById(students, id)[i].stripes == PromoteOutcome(students, id).stripes
    ensures AllInCatalog(students) ==> AllInCatalog(PromoteById(students, id))
  {
    var r := PromoteById(students, id);
    match PromoteOutcome(students, id)
    case Done(b, k) =>
      var s := FindStudent(students, id).value;
      forall i | 0 <= i < |students| ensures r[i].(belt := students[i].belt, stripes := students[i].stripes) == students[i] {
      }
      if AllInCatalog(students) {
        assert s.belt in Belts;
        forall i | 0 <= i < |students| ensures r[i].belt in Belts {
        }
      }
    case _ =>
  }

  /** Promoting an id nobody has reports it and changes nothing. */
  lemma PromoteUnknownId(students: seq<Student>, id: string)
    requires forall i :: 0 <= i < |students| ==> students[i].id != id
    ensures PromoteOutcome(students, id) == StudentNotFound
    ensures PromoteById(students, id) == students
  {
  }

  function TotalClasses(students: seq<Student>): int {
    if |students| == 0 then 0 else students[0].classesAttended + TotalClasses(students[1..])
  }

  function CountWithId(students: seq<Student>, id: string): nat {
    if |students| == 0 then 0 else (if students[0].id == id then 1 else 0) + CountWithId(students[1..], id)
  }

  /** Logging a class adds one attended class per student carrying the id. */
  lemma {:induction false} LogClassAddsOnePerMatch(students: seq<Student>, id: string)
    ensures TotalClasses(LogClassById(students, id)) == TotalClasses(students) + CountWithId(students, id)
  {
    if |students| > 0 {
      assert LogClassById(students, id)[1..] == LogClassById(students[1..], id);
      LogClassAddsOnePerMatch(students[1..], id);
    }
  }

  /** The provider: owns the list of students and replaces it on every operation. */
  class StudentStore {
    var students: seq<Student>

    constructor(initial: seq<Student>)
      ensures students == initial
    {
      students := initial;
    }

    /** `addStudent`; `freshId` stands for `generateId()`. */
    method AddStudent(data: NewStudent, freshId: string)
      modifies this
      ensures students == old(students) + [NewRecord(data, freshId)]
    {
      students := students + [NewRecord(data, freshId)];
    }

    /** `updateStudent`. */
    method UpdateStudent(id: string, p: Patch)
      modifies this
      ensures students == UpdateById(old(students), id, p)
    {
      students := UpdateById(students, id, p);
    }

    /** `logClassForStudent`. */
    method LogClassForStudent(id: string)
      modifies this
      ensures students == LogClassById(old(students), id)
    {
      students := LogClassById(students, id);
    }

    /** `promoteStudent`: find the student, compute the new rank, and patch belt and stripes. */
    method PromoteStudent(id: string) returns (r: PromoteResult)
      modifies this
      ensures r == PromoteOutcome(old(students), id)
      ensures students == PromoteById(old(students), id)
    {
      var found := FindStudent(students, id);
      if found.None? {
        return StudentNotFound;
      }
      var step := ComputeRank(found.value.belt, found.value.stripes);
      if step.AtHighestBelt? {
        return Rejected;
      }
      students := UpdateById(students, id, BeltPatch(step.belt, step.stripes));
      r := Done(step.belt, step.stripes);
    }

    /** `addPaymentForStudent`: the new payment goes first. */
    method AddPaymentForStudent(id: string, p: NewPayment, freshId: string)
      modifies this
      ensures students == AddPaymentById(old(students), id, WithId(p, freshId))
    {
      students := AddPaymentById(students, id, WithId(p, freshId));
    }

    /** Replace every student (what a confirmed backup import does). */
    method LoadStudents(replacement: seq<Student>)
      modifies this
      ensures students == replacement
    {
      students := replacement;
    }
  }
}
