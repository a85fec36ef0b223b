/** The `theme` section of the base preset: the colour tables that callbacks
    compute from the resolved theme, the shipped radius and width scales, and the
    palettes the preset adds to `colors`.  Its plugin is module Squircle.

    A callback `({ theme }) => ...` reads the theme that the host resolves with
    every preset applied; here that theme is a parameter, and `theme(path)` is the
    property walk `Path` over it. */
module BasePreset {
  import opened JsObject
  import Squircle

  /** `theme(path, fallback)`: the resolved theme's value at `path`, or `fallback`
      where that is `undefined`. */
  function ThemeValue(theme: Value, path: seq<string>, fallback: Value): Value {
    Path(theme, path).GetOr(fallback)
  }

  /** `{ ...theme('colors'), DEFAULT: d }` */
  function ColoursWithDefault(theme: Value, d: Value): Value {
    SpreadWith(Path(theme, ["colors"]), "DEFAULT", d)
  }

  /** The `borderColor` callback. */
  function BorderColor(theme: Value): Value {
    ColoursWithDefault(theme, ThemeValue(theme, ["colors", "stroke", "200"], Str("currentColor")))
  }

  /** The `ringColor` callback. */
  function RingColor(theme: Value): Value {
    ColoursWithDefault(theme, ThemeValue(theme, ["colors", "accent", "500"], Str("#60A5FA")))
  }

  /** The `accentColor` and `caretColor` callbacks: `theme('colors.accent')`. */
  function AccentColor(theme: Value): Option<Value> {
    Path(theme, ["colors", "accent"])
  }

  /** The `outlineColor` callback: `theme('borderColor')`. */
  function OutlineColor(theme: Value): Option<Value> {
    Path(theme, ["borderColor"])
  }

  /** The `ringOffsetColor` callback: `theme('ringColor')`. */
  function RingOffsetColor(theme: Value): Option<Value> {
    Path(theme, ["ringColor"])
  }

  /** A theme resolved with this preset's callbacks: each callback's table holds
      what the callback computes from that same theme. */
  predicate Resolved(theme: Value) {
    && Member(theme, "accentColor") == AccentColor(theme)
    && Member(theme, "borderColor") == Some(BorderColor(theme))
    && Member(theme, "caretColor") == AccentColor(theme)
    && Member(theme, "outlineColor") == OutlineColor(theme)
    && Member(theme, "ringColor") == Some(RingColor(theme))
    && Member(theme, "ringOffsetColor") == RingOffsetColor(theme)
  }

  // ---------------------------------------------------------------------------
  // The colour callbacks

  /** `DEFAULT` is `d`; every other colour is the theme's colour of that name. */
  lemma ColoursWithDefaultMembers(theme: Value, d: Value)
    ensures Member(ColoursWithDefault(theme, d), "DEFAULT") == Some(d)
    ensures forall k :: k != "DEFAULT" ==> Member(ColoursWithDefault(theme, d), k) == Path(theme, ["colors", k])
  {
    PathOne(theme, "colors");
    forall k | k != "DEFAULT" ensures Member(ColoursWithDefault(theme, d), k) == Path(theme, ["colors", k]) {
      PathPair(theme, "colors", k);
    }
  }

  /** `borderColor` is `colors` with `DEFAULT` set to `colors.stroke.200`, or to
      `'currentColor'` where the theme has no such shade. */
  lemma BorderColorOverridesDefault(theme: Value)
    ensures Member(BorderColor(theme), "DEFAULT")
         == match Path(theme, ["colors", "stroke", "200"]) case Some(c) => Some(c) case None => Some(Str("currentColor"))
    ensures forall k :: k != "DEFAULT" ==> Member(BorderColor(theme), k) == Path(theme, ["colors", k])
  {
    ColoursWithDefaultMembers(theme, ThemeValue(theme, ["colors", "stroke", "200"], Str("currentColor")));
  }

  /** `ringColor` is `colors` with `DEFAULT` set to `colors.accent.500`, or to
      `'#60A5FA'` where the theme has no such shade. */
  lemma RingColorOverridesDefault(theme: Value)
    ensures Member(RingColor(theme), "DEFAULT")
         == match Path(theme, ["colors", "accent", "500"]) case Some(c) => Some(c) case None => Some(Str("#60A5FA"))
    ensures forall k :: k != "DEFAULT" ==> Member(RingColor(theme), k) == Path(theme, ["colors", k])
  {
    ColoursWithDefaultMembers(theme, ThemeValue(theme, ["colors", "accent", "500"], Str("#60A5FA")));
  }

  /** The override keeps the colours' order: a `DEFAULT` colour keeps its place,
      and without one `DEFAULT` comes after every colour. */
  lemma ColoursWithDefaultOrder(theme: Value, d: Value)
    requires Path(theme, ["colors"]).Some?
    ensures var colours := Entries(Path(theme, ["colors"]).value);
      if Get(colours, "DEFAULT").Some? then Keys(Entries(ColoursWithDefault(theme, d))) == Keys(colours)
      else Entries(ColoursWithDefault(theme, d)) == colours + [("DEFAULT", d)]
  {
    var colours := Path(theme, ["colors"]).value;
    if Get(Entries(colours), "DEFAULT").Some? {
      SpreadOverrides(colours, "DEFAULT", d);
    } else {
      NonDigitIsNotIndex("DEFAULT", 0);
      SpreadAppends(colours, "DEFAULT", d);
    }
  }

  /** In a resolved theme `outlineColor` is the whole `borderColor` table,
      `ringOffsetColor` the whole `ringColor` table, and `caretColor` is
      `accentColor`. */
  lemma AliasesResolve(theme: Value)
    requires Resolved(theme)
    ensures Member(theme, "outlineColor") == Some(BorderColor(theme))
    ensures Member(theme, "ringOffsetColor") == Some(RingColor(theme))
    ensures Member(theme, "caretColor") == Member(theme, "accentColor")
  {
    PathOne(theme, "borderColor");
    PathOne(theme, "ringColor");
  }

  /** A table built by a colour callback has distinct keys when the theme is well formed. */
  lemma ColoursWithDefaultDistinct(theme: Value, d: Value)
    requires WellFormed(theme)
    ensures DistinctKeys(Entries(ColoursWithDefault(theme, d)))
  {
    if Path(theme, ["colors"]).Some? {
      PathWellFormed(theme, ["colors"]);
      EntriesDistinct(Path(theme, ["colors"]).value);
    }
    SpreadDistinct(Path(theme, ["colors"]), "DEFAULT", d);
  }

  // ---------------------------------------------------------------------------
  // The shipped scales

  /** `borderRadius`, in px so that the squircle mask can use it. */
  const RadiusScale: Props := [
    ("none", Str("0px")),
    ("sm", Str("2px")),
    ("DEFAULT", Str("4px")),
    ("md", Str("6px")),
    ("lg", Str("8px")),
    ("xl", Str("10px")),
    ("2xl", Str("16px")),
    ("3xl", Str("24px")),
    ("full", Str("9999px"))]

  const BorderRadius: Value := Literal(RadiusScale)

  /** `borderWidth`, written with `DEFAULT` first. */
  const WidthScale: Props := [WDefault, W0, W2, W4, W8]

  const BorderWidth: Value := Literal(WidthScale)

  /** The radius keys differ already in their first character. */
  lemma RadiusScaleDistinct()
    ensures DistinctKeys(RadiusScale)
  {
    var r := RadiusScale;
    assert Keys(r) == ["none", "sm", "DEFAULT", "md", "lg", "xl", "2xl", "3xl", "full"];
    forall i, j | 0 <= i < j < |r| ensures r[i].0 != r[j].0 {
      assert r[i].0[0] != r[j].0[0];
    }
  }

  /** No radius key is an array index, so the table keeps the order it is written in. */
  lemma BorderRadiusEntries()
    ensures Entries(BorderRadius) == RadiusScale
  {
    var r := RadiusScale;
    RadiusScaleDistinct();
    forall i | 0 <= i < |r| ensures !IsArrayIndex(r[i].0) {
      NonDigitIsNotIndex(r[i].0, |r[i].0| - 1);
    }
    LiteralEntries(r);
  }

  /** The width keys `0`, `2`, `4` and `8` are array indices: they enumerate first,
      in ascending order, and `DEFAULT` last, although it is written first. */
  lemma BorderWidthEntries()
    ensures Entries(BorderWidth) == [W0, W2, W4, W8, WDefault]
  {
    WidthFold4();
    PutAllSnoc([], [WDefault, W0, W2, W4], W8);
    assert [WDefault, W0, W2, W4] + [W8] == WidthScale;
    WidthStep8();
  }

  // The width fold of the literal, one property at a time.

  lemma WidthFold1()
    ensures PutAll([], [WDefault, W0]) == [W0, WDefault]
  {
    PutAllSnoc([], [], WDefault);
    PutAllSnoc([], [WDefault], W0);
    assert [] + [WDefault] == [WDefault] && [WDefault] + [W0] == [WDefault, W0];
    WidthStep0();
  }

  lemma WidthFold2()
    ensures PutAll([], [WDefault, W0, W2]) == [W0, W2, WDefault]
  {
    WidthFold1();
    PutAllSnoc([], [WDefault, W0], W2);
    assert [WDefault, W0] + [W2] == [WDefault, W0, W2];
    WidthStep2();
  }

  lemma WidthFold4()
    ensures PutAll([], [WDefault, W0, W2, W4]) == [W0, W2, W4, WDefault]
  {
    WidthFold2();
    PutAllSnoc([], [WDefault, W0, W2], W4);
    assert [WDefault, W0, W2] + [W4] == [WDefault, W0, W2, W4];
    WidthStep4();
  }

  const WDefault: (string, Value) := ("DEFAULT", Str("1px"))
  const W0: (string, Value) := ("0", Str("0px"))
  const W2: (string, Value) := ("2", Str("2px"))
  const W4: (string, Value) := ("4", Str("4px"))
  const W8: (string, Value) := ("8", Str("8px"))

  lemma DefaultRanksLast()
    ensures !IsArrayIndex("DEFAULT") && Rank("DEFAULT") == MaxArrayIndex + 1
  {
    NonDigitIsNotIndex("DEFAULT", 0);
  }

  /** A width key `n` goes in front of `DEFAULT`. */
  lemma WidthStepDefault(w: (string, Value))
    requires w in [W0, W2, W4, W8]
    ensures Put([WDefault], w.0, w.1) == [w, WDefault]
  {
    DefaultRanksLast();
    assert IsArrayIndex(w.0) && Rank(w.0) <= 8;
    PutBeforeHead(WDefault, [], w.0, w.1);
  }

  lemma WidthStep0()
    ensures Put([WDefault], "0", W0.1) == [W0, WDefault]
  {
    WidthStepDefault(W0);
  }

  lemma WidthStep2()
    ensures Put([W0, WDefault], "2", W2.1) == [W0, W2, WDefault]
  {
    assert Rank("0") == 0 && Rank("2") == 2;
    PutPastHead(W0, [WDefault], "2", W2.1);
    WidthStepDefault(W2);
  }

  lemma WidthStep4()
    ensures Put([W0, W2, WDefault], "4", W4.1) == [W0, W2, W4, WDefault]
  {
    assert Rank("0") == 0 && Rank("2") == 2 && Rank("4") == 4;
    PutPastHead(W0, [W2, WDefault], "4", W4.1);
    PutPastHead(W2, [WDefault], "4", W4.1);
    WidthStepDefault(W4);
  }

  lemma WidthStep8()
    ensures Put([W0, W2, W4, WDefault], "8", W8.1) == [W0, W2, W4, W8, WDefault]
  {
    assert Rank("0") == 0 && Rank("2") == 2 && Rank("4") == 4 && Rank("8") == 8;
    PutPastHead(W0, [W2, W4, WDefault], "8", W8.1);
    PutPastHead(W2, [W4, WDefault], "8", W8.1);
    PutPastHead(W4, [WDefault], "8", W8.1);
    WidthStepDefault(W8);
  }

  /** The radius fold of the shipped scale makes no assignment twice: its table is
      its list of assignments. */
  lemma ShippedRadiusWrites()
    ensures Squircle.RadiusUtilities(BorderRadius) == Squircle.RadiusWrites(RadiusScale)
  {
    BorderRadiusEntries();
    RadiusScaleDistinct();
    Squircle.KeyedWritesAppend(Squircle.RoundedBase, Squircle.RadiusDeclaration, RadiusScale);
  }

  const ShippedRadiusNames: seq<string> := [
    ".squircle.rounded-none", ".squircle.rounded-sm", ".squircle.rounded", ".squircle.rounded-md",
    ".squircle.rounded-lg", ".squircle.rounded-xl", ".squircle.rounded-2xl", ".squircle.rounded-3xl",
    ".squircle.rounded-full"]

  /** The shipped radius scale yields one utility per key, nine in all, named in
      the scale's order, `DEFAULT` as the bare `.squircle.rounded`. */
  lemma ShippedRadiusSelectors()
    ensures Keys(Squircle.RadiusWrites(RadiusScale)) == ShippedRadiusNames
  {
    var ws, r := Squircle.RadiusWrites(RadiusScale), RadiusScale;
    assert Keys(r) == ["none", "sm", "DEFAULT", "md", "lg", "xl", "2xl", "3xl", "full"];
    forall i | 0 <= i < |ws| ensures ws[i].0 == Squircle.UtilityName(Squircle.RoundedBase, r[i].0) {
    }
    assert ws[0].0 == ShippedRadiusNames[0];
    assert ws[1].0 == ShippedRadiusNames[1];
    assert ws[2].0 == ShippedRadiusNames[2];
    assert ws[3].0 == ShippedRadiusNames[3];
    assert ws[4].0 == ShippedRadiusNames[4];
    assert ws[5].0 == ShippedRadiusNames[5];
    assert ws[6].0 == ShippedRadiusNames[6];
    assert ws[7].0 == ShippedRadiusNames[7];
    assert ws[8].0 == ShippedRadiusNames[8];
  }

  /** `DEFAULT` gives the bare `.squircle.rounded` at 4px. */
  lemma ShippedRadiusDefault()
    ensures Get(Squircle.RadiusWrites(RadiusScale), ".squircle.rounded") == Some(Squircle.RadiusDeclaration(Str("4px")))
  {
    RadiusScaleDistinct();
    GetDistinctAt(RadiusScale, 2);
    Squircle.KeyedWritesLookup(Squircle.RoundedBase, Squircle.RadiusDeclaration, RadiusScale, "DEFAULT");
  }

  /** There is no `.squircle.rounded-DEFAULT`. */
  lemma ShippedRadiusNoSuffixedDefault()
    ensures Get(Squircle.RadiusWrites(RadiusScale), ".squircle.rounded-DEFAULT").None?
  {
    var ws := Squircle.RadiusWrites(RadiusScale);
    forall i | 0 <= i < |ws| ensures ws[i].0 != ".squircle.rounded-DEFAULT" {
      Squircle.NoSuffixedDefault(Squircle.RoundedBase, RadiusScale[i].0);
    }
  }

  /** The width fold of the shipped scale makes no assignment twice. */
  lemma ShippedWidthWrites()
    ensures Squircle.WidthUtilities(BorderWidth) == Squircle.WidthWrites([W0, W2, W4, W8, WDefault])
  {
    BorderWidthEntries();
    WidthKeysDistinct();
    Squircle.KeyedWritesAppend(Squircle.BorderBase, Squircle.WidthDeclaration, [W0, W2, W4, W8, WDefault]);
  }

  lemma WidthKeysDistinct()
    ensures DistinctKeys([W0, W2, W4, W8, WDefault])
  {
    var e := [W0, W2, W4, W8, WDefault];
    assert Keys(e) == ["0", "2", "4", "8", "DEFAULT"];
    forall i, j | 0 <= i < j < |e| ensures e[i].0 != e[j].0 {
      assert e[i].0[0] != e[j].0[0];
    }
  }

  /** The shipped width scale yields five utilities, in enumeration order: the
      numbered widths first and the bare `.squircle.border`, 1px, last. */
  lemma ShippedWidthSelectors()
    ensures Keys(Squircle.WidthWrites([W0, W2, W4, W8, WDefault]))
         == [".squircle.border-0", ".squircle.border-2", ".squircle.border-4", ".squircle.border-8", ".squircle.border"]
    ensures Squircle.WidthWrites([W0, W2, W4, W8, WDefault])[4].1 == Squircle.WidthDeclaration(Str("1px"))
  {
    var ws := Squircle.WidthWrites([W0, W2, W4, W8, WDefault]);
    assert ws[0].0 == Squircle.UtilityName(Squircle.BorderBase, "0") == ".squircle.border-0";
    assert ws[1].0 == Squircle.UtilityName(Squircle.BorderBase, "2") == ".squircle.border-2";
    assert ws[2].0 == Squircle.UtilityName(Squircle.BorderBase, "4") == ".squircle.border-4";
    assert ws[3].0 == Squircle.UtilityName(Squircle.BorderBase, "8") == ".squircle.border-8";
    assert ws[4] == (Squircle.UtilityName(Squircle.BorderBase, "DEFAULT"), Squircle.WidthDeclaration(Str("1px")));
  }

  // ---------------------------------------------------------------------------
  // The callbacks and the plugin together

  /** With this preset's `borderColor`, the plugin's bare `.squircle` utility
      paints `colors.stroke.200`, or `currentColor` where the theme has no such
      shade. */
  lemma SquircleTakesStroke(theme: Value)
    requires WellFormed(theme)
    ensures Get(Squircle.ColourUtilities(BorderColor(theme)), Squircle.SquircleSelector)
         == Some(Squircle.ColourDeclaration(match Path(theme, ["colors", "stroke", "200"]) case Some(c) => c case None => Str("currentColor")))
  {
    ColoursWithDefaultDistinct(theme, ThemeValue(theme, ["colors", "stroke", "200"], Str("currentColor")));
    BorderColorOverridesDefault(theme);
    Squircle.DefaultColourUtility(BorderColor(theme));
  }

  // ---------------------------------------------------------------------------
  // `extend.colors`

  /** `extend.colors`: `accent` is the blue palette and `type`, `container` and
      `stroke` are the neutral one. */
  function ExtendColors(blue: Value, neutral: Value): Value {
    Literal([("accent", blue), ("type", neutral), ("container", neutral), ("stroke", neutral)])
  }

  /** The four palettes, in the order they are written. */
  lemma ExtendColorsEntries(blue: Value, neutral: Value)
    ensures Entries(ExtendColors(blue, neutral))
         == [("accent", blue), ("type", neutral), ("container", neutral), ("stroke", neutral)]
  {
    var e := [("accent", blue), ("type", neutral), ("container", neutral), ("stroke", neutral)];
    assert Keys(e) == ["accent", "type", "container", "stroke"];
    forall i | 0 <= i < |e| ensures !IsArrayIndex(e[i].0) {
      NonDigitIsNotIndex(e[i].0, 0);
    }
    LiteralEntries(e);
  }
}
