/**
 * The graduation settings provider (hooks/useGraduationSettings.tsx): the
 * default table of thresholds, one entry per catalog belt; the start-up
 * load that accepts a stored table only when it is an object keyed in the
 * current `name-type` format; and the wholesale update. The fallback every
 * reader of the table applies to a missing entry is `ConfigFor`.
 */
module GraduationSettingsStore {
  import opened Types
  import opened Constants

  /** `{ classesForStripe: 30, classesForBelt: 150 }`. */
  const DefaultConfig: GradConfig := GradConfig(Some(30), Some(150))

  /** The table `generateDefaultSettings` builds from `belts`, one assignment per belt in order. */
  function DefaultsFor(belts: seq<Belt>): (m: GraduationSettings)
    ensures forall k :: k in m ==> m[k] == DefaultConfig
    ensures forall i :: 0 <= i < |belts| ==> BeltKey(belts[i]) in m
  {
    if |belts| == 0 then map[]
    else DefaultsFor(belts[..|belts| - 1])[BeltKey(belts[|belts| - 1]) := DefaultConfig]
  }

  /** The default table over the whole catalog. */
  function DefaultSettings(): GraduationSettings {
    DefaultsFor(Belts)
  }

  /** `generateDefaultSettings`: fills the table belt by belt, over the catalog. */
  method GenerateDefaultSettings() returns (m: GraduationSettings)
    ensures m == DefaultSettings()
  {
    m := FillDefaults(Belts);
  }

  /** The `forEach` of `generateDefaultSettings`: one assignment per belt, in order. */
  method FillDefaults(belts: seq<Belt>) returns (m: GraduationSettings)
    ensures m == DefaultsFor(belts)
  {
    m := map[];
    var i := 0;
    while i < |belts|
      invariant 0 <= i <= |belts|
      invariant m == DefaultsFor(belts[..i])
    {
      assert belts[..i + 1][..i] == belts[..i];
      m := m[BeltKey(belts[i]) := DefaultConfig];
      i := i + 1;
    }
    assert belts[..|belts|] == belts;
  }

  /** Every key of a default table is some belt's `name-type` key, so it holds the separator. */
  lemma {:induction false} DefaultsForKeysHaveDash(belts: seq<Belt>)
    ensures forall k :: k in DefaultsFor(belts) ==> '-' in k
  {
    if |belts| > 0 {
      DefaultsForKeysHaveDash(belts[..|belts| - 1]);
      var b := belts[|belts| - 1];
      assert BeltKey(b)[|b.name|] == '-';
    }
  }

  /** A key no belt produces has no entry. */
  lemma {:induction false} DefaultsForOnlyListedKeys(belts: seq<Belt>, k: string)
    requires forall i :: 0 <= i < |belts| ==> BeltKey(belts[i]) != k
    ensures k !in DefaultsFor(belts)
  {
    if |belts| > 0 {
      DefaultsForOnlyListedKeys(belts[..|belts| - 1], k);
    }
  }

  /** Belts with pairwise different keys give a table with one entry per belt. */
  lemma {:induction false} DefaultsForSize(belts: seq<Belt>)
    requires forall i, j :: 0 <= i < j < |belts| ==> BeltKey(belts[i]) != BeltKey(belts[j])
    ensures |DefaultsFor(belts)| == |belts|
  {
    if |belts| > 0 {
      var init := belts[..|belts| - 1];
      var k := BeltKey(belts[|belts| - 1]);
      DefaultsForSize(init);
      forall i | 0 <= i < |init| ensures BeltKey(init[i]) != k {
        assert init[i] == belts[i];
      }
      DefaultsForOnlyListedKeys(init, k);
    }
  }

  /**
   * The default table has exactly one entry per catalog belt (21 in all),
   * every entry is `{30, 150}`, and every key is in the `name-type` format.
   */
  lemma DefaultSettingsShape()
    ensures |DefaultSettings()| == |Belts| == 21
    ensures forall i :: 0 <= i < |Belts| ==> DefaultSettings()[BeltKey(Belts[i])] == DefaultConfig
    ensures forall k :: k in DefaultSettings() ==> '-' in k
  {
    CatalogShape();
    CatalogKeysDistinct();
    DefaultsForSize(Belts);
    DefaultsForKeysHaveDash(Belts);
  }

  /** The old storage format: some key lacks the `-` separator. */
  predicate OldFormat(parsed: GraduationSettings) {
    exists k :: k in parsed && '-' !in k
  }

  /**
   * The start-up load. `stored` is `None` when nothing (or the empty text)
   * is stored, and otherwise what parsing it yields. Only an object in the
   * current format is kept; everything else, a parse failure included, gives
   * the default table.
   */
  function LoadGraduationSettings(stored: Option<Parsed<GraduationSettings>>): (m: GraduationSettings)
    ensures forall k :: k in m ==> '-' in k
    ensures stored.Some? && stored.value.JsonObject? && !OldFormat(stored.value.fields) ==> m == stored.value.fields
    ensures !(stored.Some? && stored.value.JsonObject? && !OldFormat(stored.value.fields)) ==> m == DefaultSettings()
  {
    DefaultSettingsShape();
    match stored
    case Some(JsonObject(parsed)) => if OldFormat(parsed) then DefaultSettings() else parsed
    case _ => DefaultSettings()
  }

  /** Loading what a load produced (and the persistence effect stored) gives it back. */
  lemma LoadIsIdempotent(stored: Option<Parsed<GraduationSettings>>)
    ensures LoadGraduationSettings(Some(JsonObject(LoadGraduationSettings(stored)))) == LoadGraduationSettings(stored)
  {
  }

  /**
   * The threshold pair shown and used for a belt key: the stored entry, or
   * `{30, 150}` when there is none.
   */
  function ConfigFor(settings: GraduationSettings, key: string): (c: GradConfig)
    ensures key in settings ==> c == settings[key]
    ensures key !in settings ==> c == DefaultConfig
  {
    if key in settings then settings[key] else DefaultConfig
  }

  /** Under the default table every belt, listed in the catalog or not, gets `{30, 150}`. */
  lemma DefaultsGiveDefaultConfig(b: Belt)
    ensures ConfigFor(DefaultSettings(), BeltKey(b)) == DefaultConfig
  {
  }

  /** The provider: owns the table and replaces it on update. */
  class GraduationStore {
    var settings: GraduationSettings

    constructor(stored: Option<Parsed<GraduationSettings>>)
      ensures settings == LoadGraduationSettings(stored)
    {
      settings := LoadGraduationSettings(stored);
    }

    /** `updateSettings`: the argument becomes the whole table. */
    method UpdateSettings(newSettings: GraduationSettings)
      modifies this
      ensures settings == newSettings
    {
      settings := newSettings;
    }
  }
}
