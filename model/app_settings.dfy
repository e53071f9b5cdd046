/**
 * The application settings provider (hooks/useAppSettings.tsx): theme,
 * payment plans and PIX key. The start-up load accepts a stored object,
 * repairs its plan list when that list is missing, not an array, or has a
 * plan without id, and lays it over the defaults; updates merge fields.
 */
module AppSettingsStore {
  import opened Types
  import opened Constants
  import opened Seqs

  /** `defaultSettings`. */
  const DefaultAppSettings: AppSettings := AppSettings("dark", DefaultPlans, "")

  /** One element of a stored `plans` array: `null`, or a plan (`id` "" when absent or empty). */
  datatype RawPlan = NullEntry | PlanEntry(plan: Plan)

  /** A stored `plans` field: missing or falsy, present but not an array, or an array. */
  datatype RawPlans = NoPlans | NotAnArray | PlanArray(entries: seq<RawPlan>)

  /** A stored settings object: each field may be absent. */
  datatype RawAppSettings = RawAppSettings(theme: Option<string>, plans: RawPlans, pixKey: Option<string>)

  /** The plans of an array none of whose elements is `null`. */
  function PlansOf(entries: seq<RawPlan>): (plans: seq<Plan>)
    requires forall i :: 0 <= i < |entries| ==> entries[i].PlanEntry?
    ensures |plans| == |entries|
    ensures forall i :: 0 <= i < |entries| ==> plans[i] == entries[i].plan
  {
    seq(|entries|, i requires 0 <= i < |entries| => entries[i].plan)
  }

  /** `p.id || generateId()` for every default plan. */
  function RepairedPlans(freshId: string): seq<Plan> {
    seq(|DefaultPlans|, i requires 0 <= i < |DefaultPlans| =>
      DefaultPlans[i].(id := if DefaultPlans[i].id != "" then DefaultPlans[i].id else freshId))
  }

  /** The default plans all have ids, so repairing gives exactly the default plans. */
  lemma RepairedPlansAreDefaults(freshId: string)
    ensures RepairedPlans(freshId) == DefaultPlans
  {
    DefaultPlansWellFormed();
    assert forall i :: 0 <= i < |DefaultPlans| ==> RepairedPlans(freshId)[i] == DefaultPlans[i];
  }

  /** What `parsed.plans.some(p => !p.id)` meets first: a `null` (which throws) or a plan without id. */
  function FirstBadEntry(entries: seq<RawPlan>): (r: Option<RawPlan>)
    ensures r.None? <==> forall i :: 0 <= i < |entries| ==> entries[i].PlanEntry? && HasId(entries[i].plan)
  {
    FindFirst(entries, (e: RawPlan) => e.NullEntry? || !HasId(e.plan))
  }

  /** The plan scan reaches a `null` element before any plan without id, and throws. */
  predicate ScanThrows(raw: RawAppSettings) {
    raw.plans.PlanArray? && FirstBadEntry(raw.plans.entries) == Some(NullEntry)
  }

  /** The outcome of the start-up load: the settings, or `Failed` when it throws. */
  datatype LoadOutcome = Loaded(settings: AppSettings) | Failed

  /** The body of the `try`: plan repair and merge, given a stored object. */
  function LoadObject(raw: RawAppSettings, freshId: string): (r: LoadOutcome)
    ensures r.Failed? <==> ScanThrows(raw)
  {
    var plans :=
      match raw.plans
      case PlanArray(entries) =>
        (match FirstBadEntry(entries)
         case None => Some(PlansOf(entries))
         case Some(NullEntry) => None
         case Some(PlanEntry(_)) => Some(RepairedPlans(freshId)))
      case _ => Some(RepairedPlans(freshId));
    match plans
    case None => Failed
    case Some(ps) => Loaded(AppSettings(Or(raw.theme, DefaultAppSettings.theme), ps, Or(raw.pixKey, DefaultAppSettings.pixKey)))
  }

  /**
   * The start-up load. `stored` is `None` when nothing (or the empty text) is
   * stored, and otherwise what parsing it yields; `freshId` stands for
   * `generateId()`. Anything but an object, and an object whose plan scan
   * throws, gives the defaults.
   */
  function LoadAppSettings(stored: Option<Parsed<RawAppSettings>>, freshId: string): (s: AppSettings)
    ensures forall i :: 0 <= i < |s.plans| ==> HasId(s.plans[i])
    ensures !(stored.Some? && stored.value.JsonObject?) ==> s == DefaultAppSettings
    ensures stored.Some? && stored.value.JsonObject? && ScanThrows(stored.value.fields) ==> s == DefaultAppSettings
    ensures stored.Some? && stored.value.JsonObject? && !ScanThrows(stored.value.fields) ==>
      var raw := stored.value.fields;
      && s.theme == Or(raw.theme, "dark")
      && s.pixKey == Or(raw.pixKey, "")
  {
    DefaultPlansWellFormed();
    RepairedPlansAreDefaults(freshId);
    match stored
    case Some(JsonObject(raw)) =>
      (match LoadObject(raw, freshId)
       case Loaded(s) => s
       case Failed => DefaultAppSettings)
    case _ => DefaultAppSettings
  }

  /** The plan list of a stored object is kept exactly when it is an array of plans that all have ids. */
  lemma StoredPlansKeptIffValid(raw: RawAppSettings, freshId: string)
    requires !ScanThrows(raw)
    ensures (raw.plans.PlanArray? && FirstBadEntry(raw.plans.entries).None?) ==>
      LoadAppSettings(Some(JsonObject(raw)), freshId).plans == PlansOf(raw.plans.entries)
    ensures !(raw.plans.PlanArray? && FirstBadEntry(raw.plans.entries).None?) ==>
      LoadAppSettings(Some(JsonObject(raw)), freshId).plans == DefaultPlans
  {
    RepairedPlansAreDefaults(freshId);
  }

  /** What the persistence effect stores for `s`. */
  function Stored(s: AppSettings): RawAppSettings {
    RawAppSettings(Some(s.theme), PlanArray(seq(|s.plans|, i requires 0 <= i < |s.plans| => PlanEntry(s.plans[i]))), Some(s.pixKey))
  }

  /** Loading what a load produced, once stored, gives it back whatever ids are drawn. */
  lemma ReloadIsIdentity(stored: Option<Parsed<RawAppSettings>>, freshId: string, nextId: string)
    ensures LoadAppSettings(Some(JsonObject(Stored(LoadAppSettings(stored, freshId)))), nextId) == LoadAppSettings(stored, freshId)
  {
    var s := LoadAppSettings(stored, freshId);
    var entries := Stored(s).plans.entries;
    assert FirstBadEntry(entries).None?;
    assert PlansOf(entries) == s.plans;
  }

  /** `Partial<AppSettings>`: the fields an update supplies. */
  datatype SettingsPatch = SettingsPatch(theme: Option<string>, plans: Option<seq<Plan>>, pixKey: Option<string>)

  /** `{ ...prev, ...patch }`. */
  function ApplySettingsPatch(prev: AppSettings, patch: SettingsPatch): AppSettings {
    AppSettings(Or(patch.theme, prev.theme), Or(patch.plans, prev.plans), Or(patch.pixKey, prev.pixKey))
  }

  /** A field the update does not supply keeps its value; one it supplies takes the new value. */
  lemma PatchChangesOnlySupplied(prev: AppSettings, patch: SettingsPatch)
    ensures patch.theme.None? ==> ApplySettingsPatch(prev, patch).theme == prev.theme
    ensures patch.plans.None? ==> ApplySettingsPatch(prev, patch).plans == prev.plans
    ensures patch.pixKey.None? ==> ApplySettingsPatch(prev, patch).pixKey == prev.pixKey
    ensures patch.theme.Some? ==> ApplySettingsPatch(prev, patch).theme == patch.theme.value
    ensures patch.plans.Some? ==> ApplySettingsPatch(prev, patch).plans == patch.plans.value
    ensures patch.pixKey.Some? ==> ApplySettingsPatch(prev, patch).pixKey == patch.pixKey.value
    ensures ApplySettingsPatch(ApplySettingsPatch(prev, patch), patch) == ApplySettingsPatch(prev, patch)
  {
  }

  /** The provider: owns the settings and replaces them on every update. */
  class AppSettingsProvider {
    var settings: AppSettings

    /** The start-up load: the stored plan list is repaired in place before the merge. */
    constructor(stored: Option<Parsed<RawAppSettings>>, freshId: string)
      ensures settings == LoadAppSettings(stored, freshId)
    {
      DefaultPlansWellFormed();
      RepairedPlansAreDefaults(freshId);
      if stored.Some? && stored.value.JsonObject? {
        var raw := stored.value.fields;
        match LoadObject(raw, freshId)
        case Loaded(s) => settings := s;
        case Failed => settings := DefaultAppSettings;
      } else {
        settings := DefaultAppSettings;
      }
    }

    /** `updateSettings`. */
    method UpdateSettings(patch: SettingsPatch)
      modifies this
      ensures settings == ApplySettingsPatch(old(settings), patch)
    {
      settings := ApplySettingsPatch(settings, patch);
    }

    /** `setPlans`: replaces the plans, keeps theme and PIX key. */
    method SetPlans(plans: seq<Plan>)
      modifies this
      ensures settings == old(settings).(plans := plans)
    {
      settings := settings.(plans := plans);
    }

    /** Replace the settings wholesale (what a confirmed backup import does). */
    method LoadSettings(s: AppSettings)
      modifies this
      ensures settings == s
    {
      settings := s;
    }
  }
}
