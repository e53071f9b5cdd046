/**
 * The settings screen (components/Settings.tsx): editing one threshold of
 * one belt, editing, adding and removing payment plans, and the belts the
 * graduation tab lists, split by category.
 */
module SettingsPage {
  import opened Types
  import opened Strings
  import opened Seqs
  import opened Constants
  import opened GraduationSettingsStore

  /** The two thresholds a graduation row edits. */
  datatype GradField = ClassesForStripe | ClassesForBelt

  /** `{ ...entry, [field]: value }`. */
  function SetField(entry: GradConfig, field: GradField, value: int): GradConfig {
    match field
    case ClassesForStripe => entry.(classesForStripe := Some(value))
    case ClassesForBelt => entry.(classesForBelt := Some(value))
  }

  /**
   * `handleGraduationChange`: `parsed` is `parseInt(value, 10)` (`None` for
   * NaN). Returns the new table, or `None` when no update is made. A belt
   * without an entry starts from an empty one, so it gets only the edited field.
   */
  function GraduationChange(settings: GraduationSettings, belt: Belt, field: GradField, parsed: Option<int>): (r: Option<GraduationSettings>)
    ensures r.None? <==> parsed.None? || parsed.value < 0
    ensures r.Some? ==> r.value.Keys == settings.Keys + {BeltKey(belt)}
    ensures r.Some? ==> forall k :: k in settings && k != BeltKey(belt) ==> r.value[k] == settings[k]
    ensures r.Some? ==>
      var e := r.value[BeltKey(belt)];
      var old_ := if BeltKey(belt) in settings then settings[BeltKey(belt)] else GradConfig(None, None);
      match field
      case ClassesForStripe => e.classesForStripe == parsed && e.classesForBelt == old_.classesForBelt
      case ClassesForBelt => e.classesForBelt == parsed && e.classesForStripe == old_.classesForStripe
  {
    if parsed.None? || parsed.value < 0 then None
    else
      var key := BeltKey(belt);
      var entry := if key in settings then settings[key] else GradConfig(None, None);
      Some(settings[key := SetField(entry, field, parsed.value)])
  }

  /** Editing keeps every key in the `name-type` format, so the next start-up load keeps the table. */
  lemma GraduationChangeKeepsFormat(settings: GraduationSettings, belt: Belt, field: GradField, parsed: Option<int>)
    requires forall k :: k in settings ==> '-' in k
    requires GraduationChange(settings, belt, field, parsed).Some?
    ensures LoadGraduationSettings(Some(JsonObject(GraduationChange(settings, belt, field, parsed).value)))
      == GraduationChange(settings, belt, field, parsed).value
  {
    var key := BeltKey(belt);
    assert key[|belt.name|] == '-';
  }

  /** The edit a plan row makes: a new name, or a new price as `parseFloat` read it (`None` for NaN). */
  datatype PlanEdit = NameEdit(name: string) | PriceEdit(parsed: Option<real>)

  /** `handlePlanChange`: edits every plan with the id; an unreadable price becomes 0. */
  function PlanChange(plans: seq<Plan>, id: string, edit: PlanEdit): (r: seq<Plan>)
    ensures |r| == |plans|
    ensures forall i :: 0 <= i < |plans| ==> r[i].id == plans[i].id
    ensures forall i :: 0 <= i < |plans| && plans[i].id != id ==> r[i] == plans[i]
    ensures forall i :: 0 <= i < |plans| && plans[i].id == id ==>
      match edit
      case NameEdit(n) => r[i].name == n && r[i].price == plans[i].price
      case PriceEdit(p) => r[i].price == Or(p, 0.0) && r[i].name == plans[i].name
  {
    seq(|plans|, i requires 0 <= i < |plans| =>
      if plans[i].id != id then plans[i]
      else match edit
        case NameEdit(n) => plans[i].(name := n)
        case PriceEdit(p) => plans[i].(price := Or(p, 0.0)))
  }

  /** `handleAddPlan`: one new plan at the end, with a fresh id. */
  function AddPlan(plans: seq<Plan>, freshId: string): (r: seq<Plan>)
    ensures |r| == |plans| + 1 && r[..|plans|] == plans
    ensures r[|plans|] == Plan(freshId, "Novo Plano", 0.0)
  {
    plans + [Plan(freshId, "Novo Plano", 0.0)]
  }

  /** `handleRemovePlan`: drops every plan with the id and keeps the rest in order. */
  function RemovePlan(plans: seq<Plan>, id: string): (r: seq<Plan>)
    ensures |r| <= |plans|
    ensures forall p :: p in r <==> p in plans && p.id != id
    ensures forall p :: multiset(r)[p] == (if p.id != id then multiset(plans)[p] else 0)
  {
    FilterCounts(plans, (p: Plan) => p.id != id);
    Filter(plans, (p: Plan) => p.id != id)
  }

  /** The remaining plans keep their order: removal distributes over concatenation, one plan at a time. */
  lemma RemovePlanAppend(a: seq<Plan>, b: seq<Plan>, p: Plan, id: string)
    ensures RemovePlan(a + b, id) == RemovePlan(a, id) + RemovePlan(b, id)
    ensures RemovePlan([p], id) == if p.id != id then [p] else []
  {
    FilterAppend(a, b, (p: Plan) => p.id != id);
    assert [p][1..] == [];
  }

  /** Removing a plan just added with an id no other plan has restores the list. */
  lemma RemoveUndoesAdd(plans: seq<Plan>, freshId: string)
    requires forall i :: 0 <= i < |plans| ==> plans[i].id != freshId
    ensures RemovePlan(AddPlan(plans, freshId), freshId) == plans
  {
    var keep := (p: Plan) => p.id != freshId;
    FilterAppend(plans, [Plan(freshId, "Novo Plano", 0.0)], keep);
    FilterKeepsAll(plans, keep);
  }

  /** Every handler keeps "every plan has an id" when the new id is non-empty. */
  lemma PlanHandlersKeepIds(plans: seq<Plan>, id: string, edit: PlanEdit, freshId: string)
    requires forall i :: 0 <= i < |plans| ==> HasId(plans[i])
    requires freshId != ""
    ensures forall i :: 0 <= i < |plans| ==> HasId(PlanChange(plans, id, edit)[i])
    ensures forall i :: 0 <= i < |plans| + 1 ==> HasId(AddPlan(plans, freshId)[i])
    ensures forall p :: p in RemovePlan(plans, id) ==> HasId(p)
  {
  }

  /** A belt the graduation tab lists: its name mentions neither `Coral` nor `Vermelha`. */
  predicate ShownInSettings(b: Belt) {
    !Contains(b.name, "Coral") && !Contains(b.name, "Vermelha")
  }

  /** `beltsForSettings`: the page passes the catalog `Belts`. */
  function BeltsForSettings(catalog: seq<Belt>): (r: seq<Belt>)
    ensures forall b :: b in r <==> b in catalog && ShownInSettings(b)
    ensures forall b :: multiset(r)[b] == (if ShownInSettings(b) then multiset(catalog)[b] else 0)
  {
    FilterCounts(catalog, ShownInSettings);
    Filter(catalog, ShownInSettings)
  }

  /** The Kid rows and the Adult rows of the graduation tab. */
  function SettingsBeltsOfType(catalog: seq<Belt>, t: BeltType): seq<Belt> {
    Filter(BeltsForSettings(catalog), OfType(t))
  }

  lemma CatalogNamesWithoutCoral()
    ensures forall i :: 0 <= i < 18 ==> !Contains(CatalogNames[i], "Coral")
  {
    forall i | 0 <= i < 18 ensures !Contains(CatalogNames[i], "Coral") {
      if i == 15 || i == 16 {
        MissingChar(CatalogNames[i], "Coral", 'C');
      } else {
        MissingChar(CatalogNames[i], "Coral", 'o');
      }
    }
  }

  lemma CatalogNamesWithoutVermelha()
    ensures forall i :: 0 <= i < 18 ==> !Contains(CatalogNames[i], "Vermelha")
  {
    forall i | 0 <= i < 18 ensures !Contains(CatalogNames[i], "Vermelha") {
      if 10 <= i <= 12 {
        MissingChar(CatalogNames[i], "Vermelha", 'm');
      } else {
        MissingChar(CatalogNames[i], "Vermelha", 'V');
      }
    }
  }

  lemma CatalogNamesCoralOrVermelha()
    ensures forall i :: 18 <= i < |CatalogNames| ==> Contains(CatalogNames[i], "Coral") || Contains(CatalogNames[i], "Vermelha")
  {
    forall i | 18 <= i < |CatalogNames| ensures Contains(CatalogNames[i], "Coral") || Contains(CatalogNames[i], "Vermelha") {
      if i == 20 {
        assert StartsWith(CatalogNames[i], "Vermelha");
      } else {
        assert StartsWith(CatalogNames[i], "Coral");
      }
    }
  }

  /** The catalog's first 18 entries are listed and its three Coral/Vermelha entries are not. */
  lemma ShownExactlyBelowCoral()
    ensures forall i :: 0 <= i < 18 ==> ShownInSettings(Belts[i])
    ensures forall i :: 18 <= i < |Belts| ==> !ShownInSettings(Belts[i])
  {
    CatalogNamesAgree();
    CatalogNamesWithoutCoral();
    CatalogNamesWithoutVermelha();
    CatalogNamesCoralOrVermelha();
    forall i | 0 <= i < |Belts| ensures ShownInSettings(Belts[i]) <==> i < 18 {
      assert Belts[i].name == CatalogNames[i];
    }
  }

  /** The graduation tab lists the catalog minus its three Coral/Vermelha entries, in catalog order. */
  lemma SettingsListIsPrefix(catalog: seq<Belt>)
    requires catalog == Belts
    ensures BeltsForSettings(catalog) == catalog[..18]
  {
    ShownExactlyBelowCoral();
    CatalogShape();
    FilterIsPrefix(catalog, ShownInSettings, 18);
  }

  /** A catalog whose listed part is its first 18 entries, 13 Kid then 5 Adult, has those rows. */
  lemma RowsOfCatalogLayout(catalog: seq<Belt>, t: BeltType)
    requires |catalog| >= 18 && BeltsForSettings(catalog) == catalog[..18]
    requires forall i :: 0 <= i < 13 ==> catalog[i].beltType == Kid
    requires forall i :: 13 <= i < 18 ==> catalog[i].beltType == Adult
    ensures SettingsBeltsOfType(catalog, t) == if t == Kid then catalog[..13] else catalog[13..18]
  {
    SlicesOfPrefix(catalog, 18, 13);
    if t == Kid {
      FilterIsPrefix(catalog[..18], OfType(t), 13);
    } else {
      FilterIsSuffix(catalog[..18], OfType(t), 13);
    }
  }

  /**
   * Its Kid rows are all 13 Kid belts of the catalog, in order, and its
   * Adult rows the 5 Adult belts from `Branca` to `Preta`.
   */
  lemma SettingsRowsByType(catalog: seq<Belt>, t: BeltType)
    requires catalog == Belts
    ensures SettingsBeltsOfType(catalog, t) == if t == Kid then catalog[..FirstAdult] else catalog[FirstAdult..18]
    ensures |SettingsBeltsOfType(catalog, t)| == if t == Kid then 13 else 5
  {
    SettingsListIsPrefix(catalog);
    CatalogShape();
    RowsOfCatalogLayout(catalog, t);
  }
}
