/** The themes/base preset.  Its `theme` callbacks, its radius and width scales
    and its plugin are the base preset's, written out again; it differs only in
    `extend.colors`, where the `type` and `container` palettes are the neutral
    palette with shade 50 replaced by white. */
module ThemesBasePreset {
  import opened JsObject
  import Squircle
  import BasePreset

  /** `{ ...colors.neutral, 50: colors.white }` */
  function NeutralOnWhite(neutral: Value, white: Value): Value {
    SpreadWith(Some(neutral), "50", white)
  }

  /** `extend.colors`, given the host's blue, neutral and white colours. */
  function ExtendColors(blue: Value, neutral: Value, white: Value): Value {
    Literal([
      ("accent", blue),
      ("type", NeutralOnWhite(neutral, white)),
      ("container", NeutralOnWhite(neutral, white)),
      ("stroke", neutral)])
  }

  lemma ExtendColorsEntries(blue: Value, neutral: Value, white: Value)
    ensures Entries(ExtendColors(blue, neutral, white)) == [
      ("accent", blue),
      ("type", NeutralOnWhite(neutral, white)),
      ("container", NeutralOnWhite(neutral, white)),
      ("stroke", neutral)]
  {
    var e := [
      ("accent", blue),
      ("type", NeutralOnWhite(neutral, white)),
      ("container", NeutralOnWhite(neutral, white)),
      ("stroke", neutral)];
    assert Keys(e) == ["accent", "type", "container", "stroke"];
    forall i | 0 <= i < |e| ensures !IsArrayIndex(e[i].0) {
      NonDigitIsNotIndex(e[i].0, 0);
    }
    LiteralEntries(e);
  }

  lemma ExtendColorsMembers(blue: Value, neutral: Value, white: Value)
    ensures Member(ExtendColors(blue, neutral, white), "accent") == Some(blue)
    ensures Member(ExtendColors(blue, neutral, white), "type") == Some(NeutralOnWhite(neutral, white))
    ensures Member(ExtendColors(blue, neutral, white), "container") == Some(NeutralOnWhite(neutral, white))
    ensures Member(ExtendColors(blue, neutral, white), "stroke") == Some(neutral)
  {
    var e := Entries(ExtendColors(blue, neutral, white));
    ExtendColorsEntries(blue, neutral, white);
    assert Keys(e) == ["accent", "type", "container", "stroke"];
    forall i, j | 0 <= i < j < |e| ensures e[i].0 != e[j].0 {
      assert e[i].0[0] != e[j].0[0];
    }
    GetDistinctAt(e, 0);
    GetDistinctAt(e, 1);
    GetDistinctAt(e, 2);
    GetDistinctAt(e, 3);
  }

  /** `type` and `container` are neutral at every shade but 50, which is white;
      `stroke` is neutral unchanged and `accent` is blue. */
  lemma ExtendColorsShades(blue: Value, neutral: Value, white: Value)
    ensures Path(ExtendColors(blue, neutral, white), ["type", "50"]) == Some(white)
    ensures Path(ExtendColors(blue, neutral, white), ["container", "50"]) == Some(white)
    ensures forall shade :: shade != "50" ==>
      && Path(ExtendColors(blue, neutral, white), ["type", shade]) == Member(neutral, shade)
      && Path(ExtendColors(blue, neutral, white), ["container", shade]) == Member(neutral, shade)
    ensures Member(ExtendColors(blue, neutral, white), "stroke") == Some(neutral)
    ensures Member(ExtendColors(blue, neutral, white), "accent") == Some(blue)
  {
    var x := ExtendColors(blue, neutral, white);
    ExtendColorsMembers(blue, neutral, white);
    forall shade
      ensures Path(x, ["type", shade]) == Member(NeutralOnWhite(neutral, white), shade)
      ensures Path(x, ["container", shade]) == Member(NeutralOnWhite(neutral, white), shade)
    {
      PathPair(x, "type", shade);
      PathPair(x, "container", shade);
    }
  }

  /** Replacing shade 50 keeps the palette's key order when neutral has a shade
      50, and keeps the keys in enumeration order in any case. */
  lemma NeutralOnWhiteOrder(neutral: Value, white: Value)
    ensures Member(neutral, "50").Some? ==> Keys(Entries(NeutralOnWhite(neutral, white))) == Keys(Entries(neutral))
    ensures InEnumerationOrder(Entries(neutral)) ==> InEnumerationOrder(Entries(NeutralOnWhite(neutral, white)))
  {
    if Member(neutral, "50").Some? {
      SpreadOverrides(neutral, "50", white);
    }
    if InEnumerationOrder(Entries(neutral)) {
      PutKeepsEnumerationOrder(Entries(neutral), "50", white);
    }
  }

  /** With hyphen-free colour names in the theme, the `borderColor` table is too. */
  lemma BorderColorPlain(theme: Value, colours: Value)
    requires WellFormed(theme)
    requires Member(theme, "colors") == Some(colours) && Squircle.PlainColourTable(Entries(colours))
    ensures Squircle.PlainColourTable(Entries(BasePreset.BorderColor(theme)))
  {
    var d := BasePreset.ThemeValue(theme, ["colors", "stroke", "200"], Str("currentColor"));
    assert DistinctKeys(Entries(d)) by {
      if Path(theme, ["colors", "stroke", "200"]).Some? {
        PathWellFormed(theme, ["colors", "stroke", "200"]);
      }
      EntriesDistinct(d);
    }
    PathOne(theme, "colors");
    Squircle.PlainWithDefault(Entries(colours), d);
  }

  /** With `type` taken from this preset, the plugin paints
      `.squircle.border-type-50` white and every other `type` shade neutral,
      provided the colour names have no hyphen. */
  lemma TypeBorderUtilities(theme: Value, colours: Value, neutral: Value, white: Value, shade: string)
    requires WellFormed(theme)
    requires Member(theme, "colors") == Some(colours) && Squircle.PlainColourTable(Entries(colours))
    requires Member(colours, "type") == Some(NeutralOnWhite(neutral, white))
    ensures Get(Squircle.ColourUtilities(BasePreset.BorderColor(theme)), Squircle.ShadeName("type", shade))
         == if shade == "50" then Some(Squircle.ColourDeclaration(white))
            else match Member(neutral, shade) case None => None case Some(c) => Some(Squircle.ColourDeclaration(c))
  {
    BorderColorPlain(theme, colours);
    Squircle.ShadeColourUtility(BasePreset.BorderColor(theme), "type", shade);
    TypeShade(theme, colours, neutral, white, shade);
  }

  lemma TypeShade(theme: Value, colours: Value, neutral: Value, white: Value, shade: string)
    requires Member(theme, "colors") == Some(colours)
    requires Member(colours, "type") == Some(NeutralOnWhite(neutral, white))
    ensures Path(BasePreset.BorderColor(theme), ["type", shade])
         == if shade == "50" then Some(white) else Member(neutral, shade)
  {
    BasePreset.BorderColorOverridesDefault(theme);
    PathPair(theme, "colors", "type");
    PathPair(BasePreset.BorderColor(theme), "type", shade);
  }

  /** With the shipped scales, the plugin of this preset registers the constant
      `.squircle` utility, then the nine radius utilities and the five width
      utilities exactly as the folds assign them, then the colour utilities. */
  lemma ShippedPlugin(theme: Value)
    requires Member(theme, "borderRadius") == Some(BasePreset.BorderRadius)
    requires Member(theme, "borderWidth") == Some(BasePreset.BorderWidth)
    requires BasePreset.Resolved(theme)
    ensures Squircle.PluginCalls(theme) == Normal([
      Squircle.AddUtilities(Squircle.SquircleConstants, None),
      Squircle.AddUtilities(Squircle.RadiusWrites(BasePreset.RadiusScale), Some(["responsive"])),
      Squircle.AddUtilities(
        Squircle.WidthWrites([BasePreset.W0, BasePreset.W2, BasePreset.W4, BasePreset.W8, BasePreset.WDefault]),
        Some(["responsive"])),
      Squircle.AddUtilities(Squircle.ColourUtilities(BasePreset.BorderColor(theme)), Some(["responsive"]))])
  {
    BasePreset.ShippedRadiusWrites();
    BasePreset.ShippedWidthWrites();
  }
}
