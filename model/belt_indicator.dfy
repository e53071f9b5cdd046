/**
 * How a belt is drawn (components/BeltIndicator.tsx): whether it counts as
 * a black belt (red tag), whether it is a two-colour Kid belt drawn with a
 * bar across it, the colours chosen, and how many stripe marks appear.
 * Sizes and CSS layout classes are presentation only.
 */
module BeltIndicator {
  import opened Types
  import opened Strings
  import opened Constants

  /** `isBlackBelt`: the lower-cased name mentions `preta`, `coral` or `vermelha`. */
  predicate IsBlackBelt(b: Belt) {
    BlackName(b.name)
  }

  predicate BlackName(n: string) {
    Contains(Lower(n), "preta") || Contains(Lower(n), "coral") || Contains(Lower(n), "vermelha")
  }

  /** `stripeColorOnTag`. */
  function StripeColorOnTag(b: Belt): string {
    if IsBlackBelt(b) then "bg-red-500" else "bg-white"
  }

  /** `tagColor`. */
  function TagColor(b: Belt): string {
    if IsBlackBelt(b) then "bg-red-600" else "bg-black"
  }

  /** `isSplitBelt`: a Kid belt whose name has a white or black bar. */
  predicate IsSplitBelt(b: Belt) {
    b.beltType == Kid && SplitName(b.name)
  }

  predicate SplitName(n: string) {
    Contains(n, " e Branca") || Contains(n, " e Preta")
  }

  /** `stripeColor`: the colour of the bar across a split belt. */
  function BarColor(n: string): string {
    if Contains(n, " e Branca") then "#FFFFFF" else "#000000"
  }

  /** `baseColor`: the first of Cinza, Amarela, Laranja, Verde the name mentions. */
  function BaseColor(name: string): Option<string> {
    if Contains(name, "Cinza") then Some("#808080")
    else if Contains(name, "Amarela") then Some("#FFFF00")
    else if Contains(name, "Laranja") then Some("#FFA500")
    else if Contains(name, "Verde") then Some("#008000")
    else None
  }

  /** `beltStyle`: a solid fill, or the base colour with a bar across its middle fifth. */
  datatype BeltStyle = Solid(color: string) | Banded(base: string, bar: string)

  /** Whether the belt is drawn banded: split, and a base colour was found. */
  predicate IsBanded(b: Belt) {
    IsSplitBelt(b) && BaseColor(b.name).Some?
  }

  function Style(b: Belt): BeltStyle {
    if IsBanded(b) then Banded(BaseColor(b.name).value, BarColor(b.name)) else Solid(b.color)
  }

  /** `labelColorSource`. */
  function LabelColorSource(b: Belt): string {
    if IsBanded(b) then BaseColor(b.name).value else b.color
  }

  /** `lightColors`. */
  const LightColors: seq<string> := ["#FFFFFF", "#CCCCCC", "#FFFFCC", "#FFFF00", "#FFDDC1", "#D4EDD4"]

  /** `finalTextColor`: slate on light colours, white on black, the colour itself otherwise. */
  function TextColor(source: string): string {
    if source in LightColors then "#334155" else if source == "#000000" then "#FFFFFF" else source
  }

  /** The number of stripe marks drawn on the tag. */
  function StripeMarks(stripes: Stripe, hideStripes: bool): nat {
    if hideStripes then 0 else stripes
  }

  /** Everything the indicator shows about a belt. */
  datatype Indicator = Indicator(
    style: BeltStyle,
    tagColor: string,
    stripeColor: string,
    marks: nat,
    caption: string,
    textColor: string)

  function Render(b: Belt, stripes: Stripe, hideStripes: bool): (r: Indicator)
    ensures r.caption == b.name
    ensures r.marks <= 6
    ensures r.marks == 0 || r.marks == stripes
    ensures r.style.Banded? ==> b.beltType == Kid
  {
    Indicator(Style(b), TagColor(b), StripeColorOnTag(b), StripeMarks(stripes, hideStripes), b.name,
      TextColor(LabelColorSource(b)))
  }

  /** Exactly `stripes` marks are drawn unless they are hidden. */
  lemma MarksMatchStripes(b: Belt, stripes: Stripe, hideStripes: bool)
    ensures Render(b, stripes, hideStripes).marks == stripes <==> !hideStripes || stripes == 0
  {
  }

  /** The tag and its marks are red exactly for black belts. */
  lemma RedTagIffBlack(b: Belt)
    ensures TagColor(b) == "bg-red-600" <==> IsBlackBelt(b)
    ensures StripeColorOnTag(b) == "bg-red-500" <==> IsBlackBelt(b)
  {
  }

  /** The text colour differs from the label colour exactly when that colour is light or black. */
  lemma TextColorContrast(source: string)
    ensures TextColor(source) != source <==> source in LightColors || source == "#000000"
    ensures source in LightColors ==> TextColor(source) == "#334155"
  {
    assert "#334155" !in LightColors;
  }

  /** Any name that mentions Preta, Coral or Vermelha, with these capitals, is a black-belt name. */
  lemma BlackWordIsBlack(n: string, w: string)
    requires w == "Preta" || w == "Coral" || w == "Vermelha"
    requires Contains(n, w)
    ensures BlackName(n)
  {
    LowerKeepsContains(n, w);
    if w == "Preta" {
      assert Lower(w) == "preta";
    } else if w == "Coral" {
      assert Lower(w) == "coral";
    } else {
      assert Lower(w) == "vermelha";
    }
  }

  /** Every belt with a black bar (`Cinza e Preta`, ...) gets the red tag of a black belt. */
  lemma BlackBarMeansBlackBelt(b: Belt)
    requires Contains(b.name, " e Preta")
    ensures IsBlackBelt(b)
  {
    assert " e " + "Preta" == " e Preta";
    ContainsSuffixPart(b.name, " e ", "Preta");
    BlackWordIsBlack(b.name, "Preta");
  }

  /** A lower-case ASCII letter absent from `s` in both cases is absent from the lower-cased `s`. */
  lemma LowerMissing(s: string, c: char)
    requires 'a' <= c <= 'z'
    requires c !in s && (c as int - 32) as char !in s
    ensures c !in Lower(s)
  {
    forall i | 0 <= i < |s| ensures Lower(s)[i] != c {
      assert s[i] != c && s[i] as int != c as int - 32;
    }
  }

  /** None of the characters of `cs` occurs in `s`. */
  predicate NoneOf(s: string, cs: string) {
    forall i :: 0 <= i < |s| ==> s[i] !in cs
  }

  /** A name lacking p, h and one of o or c (in either case) is not a black-belt name. */
  lemma NotBlackByLetters(n: string)
    requires NoneOf(n, "pPhHoO") || NoneOf(n, "pPhHcC")
    ensures !BlackName(n)
  {
    assert 'p' !in n && 'P' !in n && 'h' !in n && 'H' !in n;
    LowerMissing(n, 'p');
    MissingChar(Lower(n), "preta", 'p');
    LowerMissing(n, 'h');
    MissingChar(Lower(n), "vermelha", 'h');
    if NoneOf(n, "pPhHoO") {
      assert 'o' !in n && 'O' !in n;
      LowerMissing(n, 'o');
      MissingChar(Lower(n), "coral", 'o');
    } else {
      assert 'c' !in n && 'C' !in n;
      LowerMissing(n, 'c');
      MissingChar(Lower(n), "coral", 'c');
    }
  }

  /** A name with " e Preta" at position `k` is a black-belt name. */
  lemma BlackBarAt(n: string, k: nat)
    requires k + 8 <= |n| && n[k..k + 8] == " e Preta"
    ensures BlackName(n)
  {
    ContainsAt(n, " e Preta", k);
    assert " e " + "Preta" == " e Preta";
    ContainsSuffixPart(n, " e ", "Preta");
    BlackWordIsBlack(n, "Preta");
  }

  /** The Kid belts with a black bar are shown as black belts. */
  lemma CatalogBlackBarBelts(i: nat)
    requires i == 3 || i == 6 || i == 9 || i == 12
    ensures IsBlackBelt(Belts[i])
  {
    CatalogNamesAgree();
    if i == 3 {
      CinzaBlackSpelling(CatalogNames[3]);
      BlackBarAt(CatalogNames[3], 5);
    } else if i == 6 {
      AmarelaBlackSpelling(CatalogNames[6]);
      BlackBarAt(CatalogNames[6], 7);
    } else if i == 9 {
      LaranjaBlackSpelling(CatalogNames[9]);
      BlackBarAt(CatalogNames[9], 7);
    } else {
      VerdeBlackSpelling(CatalogNames[12]);
      BlackBarAt(CatalogNames[12], 5);
    }
  }

  /** Adult Preta, the two Coral belts and Vermelha are shown as black belts. */
  lemma CatalogTopAdultBelts(i: nat)
    requires 17 <= i < |Belts|
    ensures IsBlackBelt(Belts[i])
  {
    CatalogNamesAgree();
    var n := CatalogNames[i];
    if i == 17 {
      assert StartsWith(n, "Preta");
      BlackWordIsBlack(n, "Preta");
    } else if i == 20 {
      assert StartsWith(n, "Vermelha");
      BlackWordIsBlack(n, "Vermelha");
    } else {
      assert StartsWith(n, "Coral");
      BlackWordIsBlack(n, "Coral");
    }
  }

  /** The catalog positions whose names mention no black: the plain and white-barred Kid belts and Adult Branca to Marrom. */
  predicate PlainPosition(i: int) {
    0 <= i < 17 && i != 3 && i != 6 && i != 9 && i != 12
  }

  lemma LowKidNamesLackLetters()
    ensures forall i :: PlainPosition(i) && i < 6 ==> NoneOf(CatalogNames[i], "pPhHoO")
  {
  }

  lemma HighKidNamesLackLetters()
    ensures forall i :: PlainPosition(i) && 6 <= i < 13 ==> NoneOf(CatalogNames[i], "pPhHoO")
  {
  }

  lemma AdultNamesLackLetters()
    ensures forall i :: PlainPosition(i) && 13 <= i < 15 ==> NoneOf(CatalogNames[i], "pPhHoO")
    ensures forall i :: PlainPosition(i) && 15 <= i ==> NoneOf(CatalogNames[i], "pPhHcC")
  {
  }

  /** The plain Kid names and the Adult names below Preta are not black-belt names. */
  lemma PlainNamesNotBlack()
    ensures forall i :: PlainPosition(i) ==> !BlackName(CatalogNames[i])
  {
    LowKidNamesLackLetters();
    HighKidNamesLackLetters();
    AdultNamesLackLetters();
    forall i | PlainPosition(i) ensures !BlackName(CatalogNames[i]) {
      NotBlackByLetters(CatalogNames[i]);
    }
  }

  /** Outside the Kid belts with a black bar and the Adult Preta and above, no catalog entry is a black belt. */
  lemma CatalogOtherBeltsNotBlack(i: nat)
    requires i < |Belts|
    requires !(i == 3 || i == 6 || i == 9 || i == 12 || i >= 17)
    ensures !IsBlackBelt(Belts[i])
  {
    PlainNamesNotBlack();
    CatalogNamesAgree();
  }

  /** An occurrence of `sub` at position `k` of `n`, stated on the slice. */
  lemma At(n: string, sub: string, k: nat)
    requires k + |sub| <= |n| && n[k..k + |sub|] == sub
    ensures Contains(n, sub)
  {
    ContainsAt(n, sub, k);
  }

  lemma BaseCinza(n: string)
    requires StartsWith(n, "Cinza")
    ensures BaseColor(n) == Some("#808080")
  {
  }

  lemma BaseAmarela(n: string)
    requires StartsWith(n, "Amarela") && NoneOf(n, "C")
    ensures BaseColor(n) == Some("#FFFF00")
  {
    assert 'C' !in n;
    MissingChar(n, "Cinza", 'C');
  }

  lemma BaseLaranja(n: string)
    requires StartsWith(n, "Laranja") && NoneOf(n, "Cm")
    ensures BaseColor(n) == Some("#FFA500")
  {
    assert 'C' !in n && 'm' !in n;
    MissingChar(n, "Cinza", 'C');
    MissingChar(n, "Amarela", 'm');
  }

  lemma BaseVerde(n: string)
    requires StartsWith(n, "Verde") && NoneOf(n, "CmL")
    ensures BaseColor(n) == Some("#008000")
  {
    assert 'C' !in n && 'm' !in n && 'L' !in n;
    MissingChar(n, "Cinza", 'C');
    MissingChar(n, "Amarela", 'm');
    MissingChar(n, "Laranja", 'L');
  }

  /** A name with ` e Branca` at `k` has a white bar. */
  lemma WhiteBar(n: string, k: nat)
    requires k + 9 <= |n| && n[k..k + 9] == " e Branca"
    ensures SplitName(n) && BarColor(n) == "#FFFFFF"
  {
    ContainsAt(n, " e Branca", k);
  }

  /** A name with ` e Preta` at `k` and no `B` has a black bar. */
  lemma BlackBar(n: string, k: nat)
    requires k + 8 <= |n| && n[k..k + 8] == " e Preta" && NoneOf(n, "B")
    ensures SplitName(n) && BarColor(n) == "#000000"
  {
    assert 'B' !in n;
    ContainsAt(n, " e Preta", k);
    MissingChar(n, " e Branca", 'B');
  }

  /** A name drawn banded in `colour` with a bar of colour `bar`. */
  predicate BandedName(n: string, colour: string, bar: string) {
    SplitName(n) && BaseColor(n) == Some(colour) && BarColor(n) == bar
  }

  /** The spelling of `Cinza e Branca` that its colours depend on. */
  lemma CinzaWhiteSpelling(n: string)
    requires n == "Cinza e Branca"
    ensures StartsWith(n, "Cinza")
    ensures 14 <= |n| && n[5..14] == " e Branca"
  {
  }

  /** The spelling of `Cinza e Preta` that its colours depend on. */
  lemma CinzaBlackSpelling(n: string)
    requires n == "Cinza e Preta"
    ensures StartsWith(n, "Cinza")
    ensures 13 <= |n| && n[5..13] == " e Preta" && NoneOf(n, "B")
  {
  }

  /** `Cinza e Branca` and `Cinza e Preta` are banded in the Cinza colour, with a white and a black bar. */
  lemma CinzaBars()
    ensures BandedName(CatalogNames[1], "#808080", "#FFFFFF") && BandedName(CatalogNames[3], "#808080", "#000000")
  {
    CinzaWhiteSpelling(CatalogNames[1]);
    CinzaBlackSpelling(CatalogNames[3]);
    BaseCinza(CatalogNames[1]);
    WhiteBar(CatalogNames[1], 5);
    BaseCinza(CatalogNames[3]);
    BlackBar(CatalogNames[3], 5);
  }

  /** The spelling of `Amarela e Branca` that its colours depend on. */
  lemma AmarelaWhiteSpelling(n: string)
    requires n == "Amarela e Branca"
    ensures StartsWith(n, "Amarela") && NoneOf(n, "C")
    ensures 16 <= |n| && n[7..16] == " e Branca"
  {
  }

  /** The spelling of `Amarela e Preta` that its colours depend on. */
  lemma AmarelaBlackSpelling(n: string)
    requires n == "Amarela e Preta"
    ensures StartsWith(n, "Amarela") && NoneOf(n, "C")
    ensures 15 <= |n| && n[7..15] == " e Preta" && NoneOf(n, "B")
  {
  }

  /** `Amarela e Branca` and `Amarela e Preta` are banded in the Amarela colour, with a white and a black bar. */
  lemma AmarelaBars()
    ensures BandedName(CatalogNames[4], "#FFFF00", "#FFFFFF") && BandedName(CatalogNames[6], "#FFFF00", "#000000")
  {
    AmarelaWhiteSpelling(CatalogNames[4]);
    AmarelaBlackSpelling(CatalogNames[6]);
    BaseAmarela(CatalogNames[4]);
    WhiteBar(CatalogNames[4], 7);
    BaseAmarela(CatalogNames[6]);
    BlackBar(CatalogNames[6], 7);
  }

  /** The spelling of `Laranja e Branca` that its colours depend on. */
  lemma LaranjaWhiteSpelling(n: string)
    requires n == "Laranja e Branca"
    ensures StartsWith(n, "Laranja") && NoneOf(n, "Cm")
    ensures 16 <= |n| && n[7..16] == " e Branca"
  {
  }

  /** The spelling of `Laranja e Preta` that its colours depend on. */
  lemma LaranjaBlackSpelling(n: string)
    requires n == "Laranja e Preta"
    ensures StartsWith(n, "Laranja") && NoneOf(n, "Cm")
    ensures 15 <= |n| && n[7..15] == " e Preta" && NoneOf(n, "B")
  {
  }

  /** `Laranja e Branca` and `Laranja e Preta` are banded in the Laranja colour, with a white and a black bar. */
  lemma LaranjaBars()
    ensures BandedName(CatalogNames[7], "#FFA500", "#FFFFFF") && BandedName(CatalogNames[9], "#FFA500", "#000000")
  {
    LaranjaWhiteSpelling(CatalogNames[7]);
    LaranjaBlackSpelling(CatalogNames[9]);
    BaseLaranja(CatalogNames[7]);
    WhiteBar(CatalogNames[7], 7);
    BaseLaranja(CatalogNames[9]);
    BlackBar(CatalogNames[9], 7);
  }

  /** The spelling of `Verde e Branca` that its colours depend on. */
  lemma VerdeWhiteSpelling(n: string)
    requires n == "Verde e Branca"
    ensures StartsWith(n, "Verde") && NoneOf(n, "CmL")
    ensures 14 <= |n| && n[5..14] == " e Branca"
  {
  }

  /** The spelling of `Verde e Preta` that its colours depend on. */
  lemma VerdeBlackSpelling(n: string)
    requires n == "Verde e Preta"
    ensures StartsWith(n, "Verde") && NoneOf(n, "CmL")
    ensures 13 <= |n| && n[5..13] == " e Preta" && NoneOf(n, "B")
  {
  }

  /** `Verde e Branca` and `Verde e Preta` are banded in the Verde colour, with a white and a black bar. */
  lemma VerdeBars()
    ensures BandedName(CatalogNames[10], "#008000", "#FFFFFF") && BandedName(CatalogNames[12], "#008000", "#000000")
  {
    VerdeWhiteSpelling(CatalogNames[10]);
    VerdeBlackSpelling(CatalogNames[12]);
    BaseVerde(CatalogNames[10]);
    WhiteBar(CatalogNames[10], 5);
    BaseVerde(CatalogNames[12]);
    BlackBar(CatalogNames[12], 5);
  }

  /** The catalog positions of the two-colour Kid belts. */
  predicate BarPosition(i: int) {
    i == 1 || i == 3 || i == 4 || i == 6 || i == 7 || i == 9 || i == 10 || i == 12
  }

  /**
   * Every two-colour Kid belt of the catalog is drawn banded in its own
   * catalog colour, with a white bar for `e Branca` and a black one for
   * `e Preta`, and its text colour is the one a solid belt of that colour
   * would get: the fallback fill is never used for the catalog.
   */
  lemma CatalogBarBeltsBanded(i: nat)
    requires BarPosition(i)
    ensures Style(Belts[i]) == Banded(Belts[i].color, if i == 1 || i == 4 || i == 7 || i == 10 then "#FFFFFF" else "#000000")
    ensures LabelColorSource(Belts[i]) == Belts[i].color
  {
    if i <= 3 {
      CinzaBars();
      CatalogBarEntry(i, "#808080");
    } else if i <= 6 {
      AmarelaBars();
      CatalogBarEntry(i, "#FFFF00");
    } else if i <= 9 {
      LaranjaBars();
      CatalogBarEntry(i, "#FFA500");
    } else {
      VerdeBars();
      CatalogBarEntry(i, "#008000");
    }
  }

  /** The catalog entry at a bar position: its listed name, the colour of its pair, Kid. */
  lemma CatalogBarEntry(i: nat, colour: string)
    requires BarPosition(i)
    requires colour == (if i <= 3 then "#808080" else if i <= 6 then "#FFFF00" else if i <= 9 then "#FFA500" else "#008000")
    ensures Belts[i] == Belt(CatalogNames[i], colour, Kid)
  {
    CatalogNamesAgree();
  }

  /** The single-colour Kid names have no bar. */
  lemma PlainKidNamesUnsplit()
    ensures forall i :: 0 <= i < 13 && !BarPosition(i) ==> NoneOf(CatalogNames[i], " ")
  {
  }

  /** Every other catalog entry is drawn as a solid fill of its own colour. */
  lemma CatalogOtherBeltsSolid(i: nat)
    requires i < |Belts| && !BarPosition(i)
    ensures Style(Belts[i]) == Solid(Belts[i].color)
    ensures LabelColorSource(Belts[i]) == Belts[i].color
  {
    CatalogShape();
    if i < FirstAdult {
      CatalogNamesAgree();
      PlainKidNamesUnsplit();
      assert ' ' !in Belts[i].name;
      MissingChar(Belts[i].name, " e Branca", ' ');
      MissingChar(Belts[i].name, " e Preta", ' ');
    }
  }

  /** A belt is drawn banded only when it is a Kid belt with a bar and a recognised base colour. */
  lemma BandedOnlyForKidBars(b: Belt)
    ensures Style(b).Banded? <==> b.beltType == Kid && SplitName(b.name) && BaseColor(b.name).Some?
    ensures Style(b).Banded? ==> (Style(b).bar == "#FFFFFF" <==> Contains(b.name, " e Branca"))
  {
  }
}
