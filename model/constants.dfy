/**
 * The belt catalog and the default plans (constants.ts): a fixed table of
 * 13 Kid belts followed by 8 Adult belts, the `name-type` belt key, the
 * catalog lookup, and the four default payment plans.
 */
module Constants {
  import opened Types
  import opened Strings
  import opened Seqs

  /** The catalog, lowest rank first within each category. */
  const Belts: seq<Belt> := [
    Belt("Branca", "#FFFFFF", Kid),
    Belt("Cinza e Branca", "#808080", Kid),
    Belt("Cinza", "#808080", Kid),
    Belt("Cinza e Preta", "#808080", Kid),
    Belt("Amarela e Branca", "#FFFF00", Kid),
    Belt("Amarela", "#FFFF00", Kid),
    Belt("Amarela e Preta", "#FFFF00", Kid),
    Belt("Laranja e Branca", "#FFA500", Kid),
    Belt("Laranja", "#FFA500", Kid),
    Belt("Laranja e Preta", "#FFA500", Kid),
    Belt("Verde e Branca", "#008000", Kid),
    Belt("Verde", "#008000", Kid),
    Belt("Verde e Preta", "#008000", Kid),
    Belt("Branca", "#FFFFFF", Adult),
    Belt("Azul", "#0000FF", Adult),
    Belt("Roxa", "#800080", Adult),
    Belt("Marrom", "#A52A2A", Adult),
    Belt("Preta", "#000000", Adult),
    Belt("Coral (Vermelha e Preta)", "#FF0000", Adult),
    Belt("Coral (Vermelha e Branca)", "#FF0000", Adult),
    Belt("Vermelha", "#FF0000", Adult)
  ]

  /** Index of the first Adult entry. */
  const FirstAdult: nat := 13

  /** `getBeltKey`: the settings key of a belt, `name-type`. */
  function BeltKey(b: Belt): (k: string)
    ensures StartsWith(k, b.name)
    ensures |k| > |b.name| && k[|b.name|] == '-'
  {
    b.name + "-" + TypeLabel(b.beltType)
  }

  /** The match used by `findBelt` and by the promotion's `findIndex`. */
  predicate Matches(b: Belt, name: string, t: BeltType) {
    b.name == name && b.beltType == t
  }

  /** The test `belt.type === t`. */
  function OfType(t: BeltType): Belt -> bool {
    (b: Belt) => b.beltType == t
  }

  /** `findBelt(name, type)`. */
  function FindBelt(name: string, t: BeltType): (r: Option<Belt>)
    ensures r.Some? ==> r.value in Belts && r.value.name == name && r.value.beltType == t
    ensures r.None? <==> forall i :: 0 <= i < |Belts| ==> !Matches(Belts[i], name, t)
  {
    FindFirst(Belts, b => Matches(b, name, t))
  }

  /** `findBelt` succeeds exactly for the name and type of some catalog entry. */
  lemma FindBeltIffListed(name: string, t: BeltType)
    ensures FindBelt(name, t).Some? <==> exists b :: b in Belts && b.name == name && b.beltType == t
  {
    FindFirstIffExists(Belts, b => Matches(b, name, t));
  }

  /** `IBJJF_BELTS.findIndex(...)` for a belt's name and type: its catalog position, or -1. */
  function CatalogIndex(b: Belt): (i: int)
    ensures -1 <= i < |Belts|
    ensures i >= 0 ==> Matches(Belts[i], b.name, b.beltType)
    ensures i == -1 <==> FindBelt(b.name, b.beltType).None?
  {
    FindIndex(Belts, c => Matches(c, b.name, b.beltType))
  }

  /** The shape of the catalog: 21 entries, Kid at 0..12, Adult at 13..20. */
  lemma CatalogShape()
    ensures |Belts| == 21
    ensures forall i :: 0 <= i < FirstAdult ==> Belts[i].beltType == Kid
    ensures forall i :: FirstAdult <= i < |Belts| ==> Belts[i].beltType == Adult
    ensures forall i, j :: 0 <= i < |Belts| && 0 <= j < |Belts| && Belts[i].beltType == Kid && Belts[j].beltType == Adult ==> i < j
  {
  }

  /** The catalog entry after position `i` has the same type exactly when `i` is not the top of its category. */
  lemma NextSameType(i: nat)
    requires i < |Belts|
    ensures (i + 1 < |Belts| && Belts[i + 1].beltType == Belts[i].beltType) <==> (i != FirstAdult - 1 && i != |Belts| - 1)
  {
    CatalogShape();
    if i + 1 < |Belts| {
      if i < FirstAdult - 1 {
        assert Belts[i].beltType == Kid && Belts[i + 1].beltType == Kid;
      } else if i == FirstAdult - 1 {
        assert Belts[i].beltType == Kid && Belts[i + 1].beltType == Adult;
      } else {
        assert Belts[i].beltType == Adult && Belts[i + 1].beltType == Adult;
      }
    }
  }

  /** The catalog's names, in order, as a plain list (a proof device). */
  ghost const CatalogNames: seq<string> := [
    "Branca", "Cinza e Branca", "Cinza", "Cinza e Preta", "Amarela e Branca", "Amarela",
    "Amarela e Preta", "Laranja e Branca", "Laranja", "Laranja e Preta", "Verde e Branca", "Verde",
    "Verde e Preta", "Branca", "Azul", "Roxa", "Marrom", "Preta", "Coral (Vermelha e Preta)",
    "Coral (Vermelha e Branca)", "Vermelha"]

  ghost function NameList(s: seq<Belt>): seq<string> {
    seq(|s|, i requires 0 <= i < |s| => s[i].name)
  }

  lemma CatalogNamesAgree()
    ensures |CatalogNames| == |Belts|
    ensures forall i :: 0 <= i < |Belts| ==> Belts[i].name == CatalogNames[i]
  {
    assert NameList(Belts) == CatalogNames;
  }

  lemma LowNamesHaveNoDash()
    ensures forall i :: 0 <= i < 7 ==> '-' !in CatalogNames[i]
  {
  }

  lemma MiddleNamesHaveNoDash()
    ensures forall i :: 7 <= i < 14 ==> '-' !in CatalogNames[i]
  {
  }

  lemma HighNamesHaveNoDash()
    ensures forall i :: 14 <= i < |CatalogNames| ==> '-' !in CatalogNames[i]
  {
  }

  lemma CatalogNamesHaveNoDash()
    ensures forall i :: 0 <= i < |CatalogNames| ==> '-' !in CatalogNames[i]
  {
    LowNamesHaveNoDash();
    MiddleNamesHaveNoDash();
    HighNamesHaveNoDash();
  }

  /** No catalog name contains the key separator. */
  lemma NamesHaveNoDash()
    ensures forall i :: 0 <= i < |Belts| ==> '-' !in Belts[i].name
  {
    CatalogNamesAgree();
    CatalogNamesHaveNoDash();
    forall i | 0 <= i < |Belts| ensures '-' !in Belts[i].name {
      assert Belts[i].name == CatalogNames[i];
    }
  }

  /** Name and type identify a catalog entry: no two entries share both. */
  lemma CatalogPairsUnique()
    ensures forall i, j :: 0 <= i < j < |Belts| ==> !Matches(Belts[j], Belts[i].name, Belts[i].beltType)
  {
  }

  /** Each category starts at a white belt. */
  lemma CategoriesStartWhite()
    ensures Belts[0] == Belt("Branca", "#FFFFFF", Kid) && Belts[FirstAdult] == Belt("Branca", "#FFFFFF", Adult)
  {
  }

  /** `Branca` appears only at the start of each category. */
  lemma BrancaOncePerType()
    ensures forall i :: 0 <= i < |Belts| && Belts[i].name == "Branca" ==> i == 0 || i == FirstAdult
  {
  }

  /** The first dash of `n-l` is the one after `n` when `n` has none: where `split('-')` cuts. */
  lemma FirstDashAfterName(n: string, l: string)
    requires '-' !in n
    ensures FindIndex(n + "-" + l, c => c == '-') == |n|
  {
    assert (n + "-" + l)[|n|] == '-';
  }

  /** Splitting `n1-l1` at its first dash recovers both parts when `n1` has no dash. */
  lemma KeySplits(n1: string, l1: string, n2: string, l2: string)
    requires '-' !in n1 && '-' !in n2
    requires n1 + "-" + l1 == n2 + "-" + l2
    ensures n1 == n2 && l1 == l2
  {
    var k1, k2 := n1 + "-" + l1, n2 + "-" + l2;
    FirstDashAfterName(n1, l1);
    FirstDashAfterName(n2, l2);
    assert n1 == k1[..|n1|] && n2 == k2[..|n2|];
    assert l1 == k1[|n1| + 1..] && l2 == k2[|n2| + 1..];
  }

  /** `getBeltKey` is injective on catalog belts: two catalog belts share a key exactly when they are the same belt. */
  lemma BeltKeyInjective(a: Belt, b: Belt)
    requires a in Belts && b in Belts
    ensures BeltKey(a) == BeltKey(b) <==> a == b
  {
    if BeltKey(a) == BeltKey(b) {
      NamesHaveNoDash();
      KeySplits(a.name, TypeLabel(a.beltType), b.name, TypeLabel(b.beltType));
      assert a.beltType == b.beltType;
      var i :| 0 <= i < |Belts| && Belts[i] == a;
      var j :| 0 <= j < |Belts| && Belts[j] == b;
      FindBeltFindsCatalogEntry(i);
      FindBeltFindsCatalogEntry(j);
      assert CatalogIndex(a) == CatalogIndex(b);
    }
  }

  /** The 21 catalog entries have 21 different keys. */
  lemma CatalogKeysDistinct()
    ensures forall i, j :: 0 <= i < j < |Belts| ==> BeltKey(Belts[i]) != BeltKey(Belts[j])
  {
    CatalogPairsUnique();
    forall i, j | 0 <= i < j < |Belts| ensures BeltKey(Belts[i]) != BeltKey(Belts[j]) {
      BeltKeyInjective(Belts[i], Belts[j]);
    }
  }

  /** `findBelt` finds every catalog entry by its own name and type. */
  lemma FindBeltFindsCatalogEntry(i: nat)
    requires i < |Belts|
    ensures FindBelt(Belts[i].name, Belts[i].beltType) == Some(Belts[i])
    ensures CatalogIndex(Belts[i]) == i
  {
    CatalogPairsUnique();
    FindFirstIsFirst(Belts, b => Matches(b, Belts[i].name, Belts[i].beltType), i);
  }

  /** `DEFAULT_PLANS`. */
  const DefaultPlans: seq<Plan> := [
    Plan("1", "Mensal", 150.0),
    Plan("2", "Trimestral", 400.0),
    Plan("3", "Anual", 1500.0),
    Plan("4", "Aula Avulsa", 50.0)
  ]

  predicate HasId(p: Plan) {
    p.id != ""
  }

  /** Four plans with distinct non-empty ids and non-negative prices. */
  lemma DefaultPlansWellFormed()
    ensures |DefaultPlans| == 4
    ensures forall i :: 0 <= i < |DefaultPlans| ==> HasId(DefaultPlans[i]) && DefaultPlans[i].price >= 0.0
    ensures forall i, j :: 0 <= i < j < |DefaultPlans| ==> DefaultPlans[i].id != DefaultPlans[j].id
  {
  }
}
