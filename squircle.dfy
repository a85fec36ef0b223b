/** The plugin that both presets register.  From the resolved `borderRadius`,
    `borderWidth` and `borderColor` theme tables it derives three tables of
    utility classes, selector to declaration, by folding each table's entries into
    a fresh object, and hands them, with a constant `.squircle` utility, to the
    host's `addUtilities`.

    A selector is the base name alone for the `DEFAULT` key and base name, `-`
    and key otherwise.  Colour tables are one level deeper: every shade of a
    named colour gets `.squircle.border-<name>-<shade>`, and the `DEFAULT` colour
    goes to the bare `.squircle`. */
module Squircle {
  import opened JsObject

  const SquircleSelector: string := ".squircle"
  const RoundedBase: string := ".squircle.rounded"
  const BorderBase: string := ".squircle.border"

  /** `'DEFAULT' === key ? base : `${base}-${key}`` */
  function UtilityName(base: string, key: string): string {
    if key == "DEFAULT" then base else base + "-" + key
  }

  /** `{ '--squircle-radius': value }` */
  function RadiusDeclaration(value: Value): Value {
    Obj([("--squircle-radius", value)])
  }

  /** The part of the border-width declaration before `'&:after'`: no native
      border, and the content lifted above the outline layer. */
  const WidthLayout: Props := [
    ("border", Str("none")),
    ("position", Str("relative")),
    ("&>*", Obj([("position", Str("relative")), ("z-index", Num(1))]))]

  /** The `'&:after'` layer that paints the squircle, before its outline width. */
  const OutlineLayer: Props := [
    ("content", Str("''")),
    ("position", Str("absolute")),
    ("top", Str("0")),
    ("left", Str("0")),
    ("width", Str("100%")),
    ("height", Str("100%")),
    ("mask", Str("paint(squircle)"))]

  /** The border-width declaration, with `'--squircle-outline'` last in `'&:after'`. */
  function WidthDeclaration(value: Value): Value {
    Obj(WidthLayout + [("&:after", Obj(OutlineLayer + [("--squircle-outline", value)]))])
  }

  /** `{ '&:after': { background: colour } }` */
  function ColourDeclaration(colour: Value): Value {
    Obj([("&:after", Obj([("background", colour)]))])
  }

  /** `${base}-${key}-${shade}` with base `.squircle.border` */
  function ShadeName(key: string, shade: string): string {
    BorderBase + "-" + key + "-" + shade
  }

  /** The constant utility registered first, without variants. */
  const SquircleConstants: Props :=
    [(SquircleSelector, Obj([("--squircle-smooth", Str("1")), ("mask-image", Str("paint(squircle)"))]))]

  // ---------------------------------------------------------------------------
  // The assignments each fold makes, in order

  /** One assignment per entry: the entry's selector under `base`, and `decl` of its value. */
  function KeyedWrites(base: string, decl: Value -> Value, entries: Props): Props {
    seq(|entries|, i requires 0 <= i < |entries| => (UtilityName(base, entries[i].0), decl(entries[i].1)))
  }

  function RadiusWrites(entries: Props): Props {
    KeyedWrites(RoundedBase, RadiusDeclaration, entries)
  }

  function WidthWrites(entries: Props): Props {
    KeyedWrites(BorderBase, WidthDeclaration, entries)
  }

  /** The `forEach` over one colour's shades. */
  function ShadeWrites(key: string, colours: Props): Props {
    seq(|colours|, j requires 0 <= j < |colours| => (ShadeName(key, colours[j].0), ColourDeclaration(colours[j].1)))
  }

  /** What one entry of the colour table assigns. */
  function EntryColourWrites(key: string, value: Value): Props {
    if key == "DEFAULT" then [(SquircleSelector, ColourDeclaration(value))]
    else ShadeWrites(key, Entries(value))
  }

  function ColourWrites(entries: Props): Props
    decreases |entries|
  {
    if entries == [] then []
    else ColourWrites(entries[..|entries| - 1]) + EntryColourWrites(entries[|entries| - 1].0, entries[|entries| - 1].1)
  }

  /** The three derived tables, each the fresh `{}` after its fold's assignments. */
  function RadiusUtilities(borderRadius: Value): Props {
    PutAll([], RadiusWrites(Entries(borderRadius)))
  }

  function WidthUtilities(borderWidth: Value): Props {
    PutAll([], WidthWrites(Entries(borderWidth)))
  }

  function ColourUtilities(borderColor: Value): Props {
    PutAll([], ColourWrites(Entries(borderColor)))
  }

  // ---------------------------------------------------------------------------
  // The folds

  /** `const shape = Object.entries(theme('borderRadius')).reduce(...)` */
  method ShapeUtilities(borderRadius: Value) returns (shape: Props)
    ensures shape == RadiusUtilities(borderRadius)
    ensures DistinctKeys(Entries(borderRadius)) ==> shape == RadiusWrites(Entries(borderRadius))
  {
    var entries := Entries(borderRadius);
    shape := [];
    var i := 0;
    while i < |entries|
      invariant 0 <= i <= |entries|
      invariant shape == PutAll([], RadiusWrites(entries[..i]))
    {
      var (key, value) := entries[i];
      KeyedWritesStep(RoundedBase, RadiusDeclaration, entries, i);
      shape := Put(shape, UtilityName(RoundedBase, key), RadiusDeclaration(value));
      i := i + 1;
    }
    assert entries[..i] == entries;
    if DistinctKeys(entries) {
      KeyedWritesAppend(RoundedBase, RadiusDeclaration, entries);
    }
  }

  /** `const border = Object.entries(theme('borderWidth')).reduce(...)` */
  method BorderUtilities(borderWidth: Value) returns (border: Props)
    ensures border == WidthUtilities(borderWidth)
    ensures DistinctKeys(Entries(borderWidth)) ==> border == WidthWrites(Entries(borderWidth))
  {
    var entries := Entries(borderWidth);
    border := [];
    var i := 0;
    while i < |entries|
      invariant 0 <= i <= |entries|
      invariant border == PutAll([], WidthWrites(entries[..i]))
    {
      var (key, value) := entries[i];
      KeyedWritesStep(BorderBase, WidthDeclaration, entries, i);
      border := Put(border, UtilityName(BorderBase, key), WidthDeclaration(value));
      i := i + 1;
    }
    assert entries[..i] == entries;
    if DistinctKeys(entries) {
      KeyedWritesAppend(BorderBase, WidthDeclaration, entries);
    }
  }

  /** The inner `colors.forEach(...)` of the colour fold: one assignment per shade. */
  method AddShades(acc0: Props, key: string, colors: Props) returns (acc: Props)
    ensures acc == PutAll(acc0, ShadeWrites(key, colors))
  {
    acc := acc0;
    var j := 0;
    while j < |colors|
      invariant 0 <= j <= |colors|
      invariant acc == PutAll(acc0, ShadeWrites(key, colors[..j]))
    {
      var (shade, color) := colors[j];
      ShadeWritesStep(acc0, key, colors, j);
      acc := Put(acc, ShadeName(key, shade), ColourDeclaration(color));
      j := j + 1;
    }
    assert colors[..j] == colors;
  }

  /** `const borderColor = Object.entries(theme('borderColor')).reduce(...)` */
  method BorderColorUtilities(borderColor: Value) returns (acc: Props)
    ensures acc == ColourUtilities(borderColor)
  {
    var entries := Entries(borderColor);
    acc := [];
    var i := 0;
    while i < |entries|
      invariant 0 <= i <= |entries|
      invariant acc == PutAll([], ColourWrites(entries[..i]))
    {
      var (key, value) := entries[i];
      var colors := Entries(value);
      ColourWritesStep(entries, i);
      if key == "DEFAULT" {
        acc := Put(acc, SquircleSelector, ColourDeclaration(value));
      } else {
        acc := AddShades(acc, key, colors);
      }
      i := i + 1;
    }
    assert entries[..i] == entries;
  }

  // The folds' loop steps: one more entry, one more round of assignments.

  lemma KeyedWritesStep(base: string, decl: Value -> Value, entries: Props, i: nat)
    requires i < |entries|
    ensures PutAll([], KeyedWrites(base, decl, entries[..i + 1]))
         == Put(PutAll([], KeyedWrites(base, decl, entries[..i])), UtilityName(base, entries[i].0), decl(entries[i].1))
  {
    var w := (UtilityName(base, entries[i].0), decl(entries[i].1));
    assert KeyedWrites(base, decl, entries[..i + 1]) == KeyedWrites(base, decl, entries[..i]) + [w];
    PutAllSnoc([], KeyedWrites(base, decl, entries[..i]), w);
  }

  lemma ShadeWritesStep(acc0: Props, key: string, colors: Props, j: nat)
    requires j < |colors|
    ensures PutAll(acc0, ShadeWrites(key, colors[..j + 1]))
         == Put(PutAll(acc0, ShadeWrites(key, colors[..j])), ShadeName(key, colors[j].0), ColourDeclaration(colors[j].1))
  {
    var w := (ShadeName(key, colors[j].0), ColourDeclaration(colors[j].1));
    assert ShadeWrites(key, colors[..j + 1]) == ShadeWrites(key, colors[..j]) + [w];
    PutAllSnoc(acc0, ShadeWrites(key, colors[..j]), w);
  }

  lemma ColourWritesStep(entries: Props, i: nat)
    requires i < |entries|
    ensures entries[i].0 == "DEFAULT" ==>
      PutAll([], ColourWrites(entries[..i + 1]))
        == Put(PutAll([], ColourWrites(entries[..i])), SquircleSelector, ColourDeclaration(entries[i].1))
    ensures entries[i].0 != "DEFAULT" ==>
      PutAll([], ColourWrites(entries[..i + 1]))
        == PutAll(PutAll([], ColourWrites(entries[..i])), ShadeWrites(entries[i].0, Entries(entries[i].1)))
  {
    var (key, value) := entries[i];
    var done := ColourWrites(entries[..i]);
    assert entries[..i + 1][..i] == entries[..i];
    assert ColourWrites(entries[..i + 1]) == done + EntryColourWrites(key, value);
    PutAllAppend([], done, EntryColourWrites(key, value));
    if key == "DEFAULT" {
      PutAllSnoc([], done, (SquircleSelector, ColourDeclaration(value)));
      assert [] + [(SquircleSelector, ColourDeclaration(value))] == EntryColourWrites(key, value);
    }
  }

  datatype AddUtilities = AddUtilities(utilities: Props, variants: Option<seq<string>>)

  const TypeError: string := "TypeError: Cannot convert undefined or null to object"

  /** The calls to `addUtilities` the plugin makes, in order, from the three tables. */
  function Registrations(radius: Value, width: Value, colour: Value): seq<AddUtilities> {
    [AddUtilities(SquircleConstants, None),
     AddUtilities(RadiusUtilities(radius), Some(["responsive"])),
     AddUtilities(WidthUtilities(width), Some(["responsive"])),
     AddUtilities(ColourUtilities(colour), Some(["responsive"]))]
  }

  /** The plugin's effect on a resolved theme: its registrations, or the TypeError
      that `Object.entries` throws when a table is `undefined`. */
  function PluginCalls(theme: Value): Completion<seq<AddUtilities>> {
    var radius, width, colour := Member(theme, "borderRadius"), Member(theme, "borderWidth"), Member(theme, "borderColor");
    if radius.None? || width.None? || colour.None? then Throw(TypeError)
    else Normal(Registrations(radius.value, width.value, colour.value))
  }

  /** The plugin body, given the resolved theme that `theme(path)` reads. */
  method Plugin(theme: Value) returns (r: Completion<seq<AddUtilities>>)
    ensures r.Throw? <==> Member(theme, "borderRadius").None? || Member(theme, "borderWidth").None? || Member(theme, "borderColor").None?
    ensures r == PluginCalls(theme)
  {
    var radius := Member(theme, "borderRadius");
    if radius.None? {
      return Throw(TypeError);
    }
    var shape := ShapeUtilities(radius.value);
    var width := Member(theme, "borderWidth");
    if width.None? {
      return Throw(TypeError);
    }
    var border := BorderUtilities(width.value);
    var colour := Member(theme, "borderColor");
    if colour.None? {
      return Throw(TypeError);
    }
    var borderColor := BorderColorUtilities(colour.value);
    r := Normal([
      AddUtilities(SquircleConstants, None),
      AddUtilities(shape, Some(["responsive"])),
      AddUtilities(border, Some(["responsive"])),
      AddUtilities(borderColor, Some(["responsive"]))]);
  }

  /** Running the plugin twice on the same theme registers the same utilities:
      every fold starts from a fresh `{}` and keeps no state between runs. */
  method PluginIsDeterministic(theme: Value) returns (first: Completion<seq<AddUtilities>>, second: Completion<seq<AddUtilities>>)
    ensures first == second
  {
    first := Plugin(theme);
    second := Plugin(theme);
  }

  // ---------------------------------------------------------------------------
  // Selector naming

  /** Distinct keys get distinct selectors, whatever the base. */
  lemma UtilityNameInjective(base: string, k1: string, k2: string)
    requires UtilityName(base, k1) == UtilityName(base, k2)
    ensures k1 == k2
  {
    if k1 != "DEFAULT" && k2 != "DEFAULT" {
      assert k1 == (base + "-" + k1)[|base| + 1..];
      assert k2 == (base + "-" + k2)[|base| + 1..];
    }
  }

  /** No key is named `<base>-DEFAULT`: the `DEFAULT` key takes the bare base. */
  lemma NoSuffixedDefault(base: string, key: string)
    ensures UtilityName(base, key) != base + "-DEFAULT"
    ensures key == "DEFAULT" <==> UtilityName(base, key) == base
  {
    if key != "DEFAULT" {
      assert key == (base + "-" + key)[|base| + 1..];
      assert "DEFAULT" == (base + "-DEFAULT")[|base| + 1..];
    }
  }

  /** Without duplicate keys no assignment of the radius or width fold overwrites
      another: the result has one entry per key, in entry order. */
  lemma KeyedWritesAppend(base: string, decl: Value -> Value, entries: Props)
    requires |base| > 0 && base[0] == '.'
    requires DistinctKeys(entries)
    ensures PutAll([], KeyedWrites(base, decl, entries)) == KeyedWrites(base, decl, entries)
  {
    var ws := KeyedWrites(base, decl, entries);
    forall i, j | 0 <= i < j < |ws| ensures ws[i].0 != ws[j].0 {
      if ws[i].0 == ws[j].0 { UtilityNameInjective(base, entries[i].0, entries[j].0); }
    }
    forall i | 0 <= i < |ws| ensures AppendsTo([], ws[i].0) {
      assert ws[i].0 == UtilityName(base, entries[i].0) && ws[i].0[0] == base[0];
      NonDigitIsNotIndex(ws[i].0, 0);
    }
    PutAllFresh([], ws);
    assert [] + ws == ws;
  }

  /** The selector of key `k` holds `decl` of `k`'s value, and exists exactly when
      `k` is a key of the table. */
  lemma KeyedWritesLookup(base: string, decl: Value -> Value, entries: Props, k: string)
    requires DistinctKeys(entries)
    ensures Get(KeyedWrites(base, decl, entries), UtilityName(base, k))
         == match Get(entries, k) case None => None case Some(v) => Some(decl(v))
  {
    var ws := KeyedWrites(base, decl, entries);
    var n := UtilityName(base, k);
    if Get(entries, k).Some? {
      var i := KeyIndex(entries, k);
      assert ws[i].0 == n;
      forall a, b | 0 <= a < b < |ws| ensures ws[a].0 != ws[b].0 {
        if ws[a].0 == ws[b].0 { UtilityNameInjective(base, entries[a].0, entries[b].0); }
      }
      GetDistinctAt(ws, i);
    } else {
      forall a | 0 <= a < |ws| ensures ws[a].0 != n {
        if ws[a].0 == n { UtilityNameInjective(base, entries[a].0, k); }
      }
    }
  }

  // ---------------------------------------------------------------------------
  // Radius and width utilities

  /** Each radius selector's declaration is `{'--squircle-radius': v}` for that
      key's value `v`, and there is a selector for exactly the table's keys. */
  lemma RadiusUtilityOfKey(borderRadius: Value, k: string)
    requires DistinctKeys(Entries(borderRadius))
    ensures Get(RadiusUtilities(borderRadius), UtilityName(RoundedBase, k))
         == match Member(borderRadius, k) case None => None case Some(v) => Some(RadiusDeclaration(v))
    ensures |RadiusUtilities(borderRadius)| == |Entries(borderRadius)|
  {
    KeyedWritesAppend(RoundedBase, RadiusDeclaration, Entries(borderRadius));
    KeyedWritesLookup(RoundedBase, RadiusDeclaration, Entries(borderRadius), k);
  }

  /** Each width selector's declaration is the fixed template with
      `'--squircle-outline'` set to that key's value, for exactly the table's keys. */
  lemma WidthUtilityOfKey(borderWidth: Value, k: string)
    requires DistinctKeys(Entries(borderWidth))
    ensures Get(WidthUtilities(borderWidth), UtilityName(BorderBase, k))
         == match Member(borderWidth, k) case None => None case Some(v) => Some(WidthDeclaration(v))
    ensures |WidthUtilities(borderWidth)| == |Entries(borderWidth)|
  {
    KeyedWritesAppend(BorderBase, WidthDeclaration, Entries(borderWidth));
    KeyedWritesLookup(BorderBase, WidthDeclaration, Entries(borderWidth), k);
  }

  /** The radius declaration carries the value unchanged and nothing else. */
  lemma RadiusDeclarationCarriesValue(v: Value)
    ensures Path(RadiusDeclaration(v), ["--squircle-radius"]) == Some(v)
    ensures forall f :: f != "--squircle-radius" ==> Member(RadiusDeclaration(v), f).None?
  {
    assert ["--squircle-radius"][1..] == [];
  }

  /** `'--squircle-outline'` in `'&:after'` is the width value; every other field
      of the width declaration is the same for every key and value. */
  lemma WidthDeclarationVariesOnlyInOutline(v: Value, w: Value)
    ensures Path(WidthDeclaration(v), ["&:after", "--squircle-outline"]) == Some(v)
    ensures forall f :: f != "&:after" ==> Member(WidthDeclaration(v), f) == Member(WidthDeclaration(w), f)
    ensures forall f :: f != "--squircle-outline" ==>
      Path(WidthDeclaration(v), ["&:after", f]) == Path(WidthDeclaration(w), ["&:after", f])
  {
    WidthAfterLayer(v, "--squircle-outline");
    PathPair(WidthDeclaration(v), "&:after", "--squircle-outline");
    forall f | f != "&:after" ensures Member(WidthDeclaration(v), f) == Member(WidthDeclaration(w), f) {
      WidthOutsideLayer(v, f);
      WidthOutsideLayer(w, f);
    }
    forall f | f != "--squircle-outline"
      ensures Path(WidthDeclaration(v), ["&:after", f]) == Path(WidthDeclaration(w), ["&:after", f])
    {
      WidthAfterLayer(v, f);
      WidthAfterLayer(w, f);
      PathPair(WidthDeclaration(v), "&:after", f);
      PathPair(WidthDeclaration(w), "&:after", f);
    }
  }

  lemma WidthOutsideLayer(v: Value, f: string)
    requires f != "&:after"
    ensures Member(WidthDeclaration(v), f) == Get(WidthLayout, f)
  {
    GetAppend(WidthLayout, [("&:after", Obj(OutlineLayer + [("--squircle-outline", v)]))], f);
  }

  lemma WidthAfterLayer(v: Value, f: string)
    ensures Member(WidthDeclaration(v), "&:after") == Some(Obj(OutlineLayer + [("--squircle-outline", v)]))
    ensures Get(OutlineLayer + [("--squircle-outline", v)], f)
         == if f == "--squircle-outline" then Some(v) else Get(OutlineLayer, f)
  {
    assert Get(WidthLayout, "&:after").None? by {
      assert WidthLayout[0].0[0] == 'b' && WidthLayout[1].0[0] == 'p' && WidthLayout[2].0[1] == '>';
    }
    GetAppend(WidthLayout, [("&:after", Obj(OutlineLayer + [("--squircle-outline", v)]))], "&:after");
    OutlineLayerLookup(v, f);
  }

  lemma OutlineLayerLookup(v: Value, f: string)
    ensures Get(OutlineLayer + [("--squircle-outline", v)], f)
         == if f == "--squircle-outline" then Some(v) else Get(OutlineLayer, f)
  {
    assert Get(OutlineLayer, "--squircle-outline").None? by {
      forall i | 0 <= i < |OutlineLayer| ensures OutlineLayer[i].0 != "--squircle-outline" {
        assert OutlineLayer[i].0[0] != '-';
      }
    }
    GetAppend(OutlineLayer, [("--squircle-outline", v)], f);
  }

  // ---------------------------------------------------------------------------
  // Colour utilities

  /** The name part after `.squircle.border-`, up to the next hyphen. */
  function NameKey(n: string): string {
    if |n| > |BorderBase| + 1 then UpToHyphen(n[|BorderBase| + 1..]) else ""
  }

  function UpToHyphen(s: string): string {
    if s == [] || s[0] == '-' then [] else [s[0]] + UpToHyphen(s[1..])
  }

  lemma {:induction false} UpToHyphenOf(k: string, rest: string)
    requires '-' !in k
    ensures UpToHyphen(k + "-" + rest) == k
  {
    if k != [] {
      assert (k + "-" + rest)[1..] == k[1..] + "-" + rest;
      UpToHyphenOf(k[1..], rest);
    } else {
      assert k + "-" + rest == "-" + rest;
    }
  }

  /** The name part after the key and its hyphen. */
  function ShadePart(n: string): string {
    var start := |BorderBase| + 1 + |NameKey(n)| + 1;
    if |n| >= start then n[start..] else ""
  }

  /** A selector of a hyphen-free key splits back into its key and shade. */
  lemma NameKeyOfShadeName(k: string, s: string)
    requires '-' !in k
    ensures NameKey(ShadeName(k, s)) == k
    ensures ShadePart(ShadeName(k, s)) == s
    ensures ShadeName(k, s) != SquircleSelector
  {
    var n := ShadeName(k, s);
    assert n[|BorderBase| + 1..] == k + "-" + s;
    UpToHyphenOf(k, s);
    assert n[|BorderBase| + 1 + |k| + 1..] == s;
    assert |n| > |SquircleSelector|;
  }

  /** Under one key, distinct shades give distinct selectors. */
  lemma ShadeNameInjective(k: string, s1: string, s2: string)
    requires ShadeName(k, s1) == ShadeName(k, s2)
    ensures s1 == s2
  {
    var p := BorderBase + "-" + k + "-";
    assert s1 == (p + s1)[|p|..];
    assert s2 == (p + s2)[|p|..];
  }

  /** A colour key without a hyphen: its selectors cannot run into another key's. */
  predicate PlainColourTable(entries: Props) {
    && DistinctKeys(entries)
    && forall i :: 0 <= i < |entries| ==> '-' !in entries[i].0 && DistinctKeys(Entries(entries[i].1))
  }

  /** Adding a `DEFAULT` colour with distinct entries keeps a table plain. */
  lemma PlainWithDefault(entries: Props, d: Value)
    requires PlainColourTable(entries) && DistinctKeys(Entries(d))
    ensures PlainColourTable(Put(entries, "DEFAULT", d))
  {
    PutKeepsDistinctKeys(entries, "DEFAULT", d);
    PutElements(entries, "DEFAULT", d);
    var r := Put(entries, "DEFAULT", d);
    forall i | 0 <= i < |r| ensures '-' !in r[i].0 && DistinctKeys(Entries(r[i].1)) {
      if r[i] != ("DEFAULT", d) {
        var j :| 0 <= j < |entries| && entries[j] == r[i];
      }
    }
  }

  lemma DistinctConcat(a: Props, b: Props)
    requires DistinctKeys(a) && DistinctKeys(b)
    requires forall i, j :: 0 <= i < |a| && 0 <= j < |b| ==> a[i].0 != b[j].0
    ensures DistinctKeys(a + b)
  {
    var c := a + b;
    forall i, j | 0 <= i < j < |c| ensures c[i].0 != c[j].0 {
      if j < |a| {
        assert c[i] == a[i] && c[j] == a[j];
      } else if i >= |a| {
        assert c[i] == b[i - |a|] && c[j] == b[j - |a|];
      } else {
        assert c[i] == a[i] && c[j] == b[j - |a|];
      }
    }
  }

  lemma PlainPrefix(entries: Props)
    requires entries != [] && PlainColourTable(entries)
    ensures PlainColourTable(entries[..|entries| - 1])
    ensures Get(entries[..|entries| - 1], entries[|entries| - 1].0).None?
  {
    var init := entries[..|entries| - 1];
    assert forall i :: 0 <= i < |init| ==> init[i] == entries[i];
  }

  /** Where a colour selector can come from: `.squircle` from a `DEFAULT` entry,
      any other selector from the shade of the entry that its two name parts name. */
  predicate ColourOrigin(entries: Props, n: string) {
    if n == SquircleSelector then Get(entries, "DEFAULT").Some?
    else
      && NameKey(n) != "DEFAULT"
      && Get(entries, NameKey(n)).Some?
      && Get(Entries(Get(entries, NameKey(n)).value), ShadePart(n)).Some?
  }

  /** An origin stays an origin when the table grows. */
  lemma ColourOriginGrows(init: Props, e: (string, Value), n: string)
    requires ColourOrigin(init, n)
    ensures ColourOrigin(init + [e], n)
  {
    GetAppend(init, [e], "DEFAULT");
    GetAppend(init, [e], NameKey(n));
  }

  /** The selectors of the last entry come from that entry. */
  lemma ColourOriginOfLast(init: Props, key: string, value: Value, j: nat)
    requires '-' !in key && Get(init, key).None?
    requires j < |EntryColourWrites(key, value)|
    ensures ColourOrigin(init + [(key, value)], EntryColourWrites(key, value)[j].0)
  {
    GetAppend(init, [(key, value)], key);
    if key != "DEFAULT" {
      var shade := Entries(value)[j].0;
      NameKeyOfShadeName(key, shade);
      assert Get(Entries(value), shade).Some?;
    }
  }

  /** Where each colour assignment comes from: `.squircle` only from a `DEFAULT`
      entry, every other selector from the shade of the entry that its two name
      parts name. */
  lemma {:induction false} ColourWriteOrigin(entries: Props, a: nat)
    requires PlainColourTable(entries) && a < |ColourWrites(entries)|
    ensures ColourOrigin(entries, ColourWrites(entries)[a].0)
    decreases |entries|
  {
    var init := entries[..|entries| - 1];
    var (key, value) := entries[|entries| - 1];
    var done := ColourWrites(init);
    var ew := EntryColourWrites(key, value);
    PlainPrefix(entries);
    assert init + [(key, value)] == entries;
    assert ColourWrites(entries) == done + ew;
    if a < |done| {
      ColourWriteOrigin(init, a);
      ColourOriginGrows(init, (key, value), done[a].0);
    } else {
      assert '-' !in key;
      ColourOriginOfLast(init, key, value, a - |done|);
    }
  }

  /** The assignments of one entry have distinct selectors. */
  lemma EntryColourWritesDistinct(key: string, value: Value)
    requires DistinctKeys(Entries(value))
    ensures DistinctKeys(EntryColourWrites(key, value))
  {
    if key != "DEFAULT" {
      var ws := EntryColourWrites(key, value);
      var cs := Entries(value);
      forall i, j | 0 <= i < j < |ws| ensures ws[i].0 != ws[j].0 {
        if ws[i].0 == ws[j].0 { ShadeNameInjective(key, cs[i].0, cs[j].0); }
      }
    }
  }

  /** With hyphen-free colour names no two assignments of the colour fold share a selector. */
  lemma {:induction false} ColourWritesDistinct(entries: Props)
    requires PlainColourTable(entries)
    ensures DistinctKeys(ColourWrites(entries))
    decreases |entries|
  {
    if entries != [] {
      var init := entries[..|entries| - 1];
      var (key, value) := entries[|entries| - 1];
      var done := ColourWrites(init);
      var ew := EntryColourWrites(key, value);
      PlainPrefix(entries);
      ColourWritesDistinct(init);
      EntryColourWritesDistinct(key, value);
      forall i, j | 0 <= i < |done| && 0 <= j < |ew| ensures done[i].0 != ew[j].0 {
        ColourWriteOrigin(init, i);
        if key != "DEFAULT" {
          var shade := Entries(value)[j].0;
          NameKeyOfShadeName(key, shade);
        }
      }
      DistinctConcat(done, ew);
    }
  }

  /** Every colour selector starts with `.`, so no assignment is an array index. */
  lemma ColourWritesAreDotNames(entries: Props, a: nat)
    requires a < |ColourWrites(entries)|
    ensures |ColourWrites(entries)[a].0| > 0 && ColourWrites(entries)[a].0[0] == '.'
    decreases |entries|
  {
    var init := entries[..|entries| - 1];
    var (key, value) := entries[|entries| - 1];
    var done := ColourWrites(init);
    if a < |done| {
      ColourWritesAreDotNames(init, a);
    } else {
      var ew := EntryColourWrites(key, value);
      assert ColourWrites(entries)[a] == ew[a - |done|];
    }
  }

  /** With hyphen-free colour names the derived table holds every assignment, in
      order: one selector per shade of every non-`DEFAULT` colour and `.squircle`
      for `DEFAULT`. */
  lemma ColourUtilitiesExact(borderColor: Value)
    requires PlainColourTable(Entries(borderColor))
    ensures ColourUtilities(borderColor) == ColourWrites(Entries(borderColor))
  {
    var ws := ColourWrites(Entries(borderColor));
    ColourWritesDistinct(Entries(borderColor));
    forall i | 0 <= i < |ws| ensures AppendsTo([], ws[i].0) {
      ColourWritesAreDotNames(Entries(borderColor), i);
      NonDigitIsNotIndex(ws[i].0, 0);
    }
    PutAllFresh([], ws);
    assert [] + ws == ws;
  }

  /** `.squircle` holds the `DEFAULT` colour, whatever it is, and exists only if
      the table has a `DEFAULT` key. */
  lemma {:induction false} DefaultColourLastWrite(entries: Props)
    requires DistinctKeys(entries)
    ensures LastWrite(ColourWrites(entries), SquircleSelector)
         == match Get(entries, "DEFAULT") case None => None case Some(v) => Some(ColourDeclaration(v))
    decreases |entries|
  {
    if entries != [] {
      var init, last := entries[..|entries| - 1], entries[|entries| - 1];
      DistinctPrefix(entries);
      DefaultColourLastWrite(init);
      assert ColourWrites(entries) == ColourWrites(init) + EntryColourWrites(last.0, last.1);
      LastWriteAppend(ColourWrites(init), EntryColourWrites(last.0, last.1), SquircleSelector);
      EntryWritesToSquircle(last.0, last.1);
      assert entries == init + [last];
      GetAppend(init, [last], "DEFAULT");
    }
  }

  /** One entry writes `.squircle` exactly when its key is `DEFAULT`. */
  lemma EntryWritesToSquircle(key: string, value: Value)
    ensures LastWrite(EntryColourWrites(key, value), SquircleSelector)
         == if key == "DEFAULT" then Some(ColourDeclaration(value)) else None
  {
    var ew := EntryColourWrites(key, value);
    if key == "DEFAULT" {
      assert ew[..0] == [];
    } else {
      forall j | 0 <= j < |ew| ensures ew[j].0 != SquircleSelector {
        assert |ew[j].0| > |SquircleSelector|;
      }
      NoWriteTo(ew, SquircleSelector);
    }
  }

  lemma {:induction false} NoWriteTo(ws: Props, k: string)
    requires forall j :: 0 <= j < |ws| ==> ws[j].0 != k
    ensures LastWrite(ws, k).None?
    decreases |ws|
  {
    if ws != [] {
      var init := ws[..|ws| - 1];
      assert forall j :: 0 <= j < |init| ==> init[j] == ws[j];
      NoWriteTo(init, k);
    }
  }

  /** `DEFAULT` writes the bare `.squircle` with background the value itself,
      and `.squircle` exists only for a `DEFAULT` key. */
  lemma DefaultColourUtility(borderColor: Value)
    requires DistinctKeys(Entries(borderColor))
    ensures Get(ColourUtilities(borderColor), SquircleSelector)
         == match Member(borderColor, "DEFAULT") case None => None case Some(v) => Some(ColourDeclaration(v))
  {
    GetPutAll([], ColourWrites(Entries(borderColor)), SquircleSelector);
    DefaultColourLastWrite(Entries(borderColor));
  }

  /** A non-`DEFAULT` colour writes one selector per shade and none for the bare
      key: `.squircle.border-<key>` is not among its selectors. */
  lemma EntryColourWritesShape(key: string, value: Value)
    requires key != "DEFAULT"
    ensures |EntryColourWrites(key, value)| == |Entries(value)|
    ensures forall j :: 0 <= j < |Entries(value)| ==>
      EntryColourWrites(key, value)[j] == (ShadeName(key, Entries(value)[j].0), ColourDeclaration(Entries(value)[j].1))
    ensures forall j :: 0 <= j < |Entries(value)| ==>
      EntryColourWrites(key, value)[j].0 != UtilityName(BorderBase, key)
  {
    forall j | 0 <= j < |Entries(value)| ensures EntryColourWrites(key, value)[j].0 != UtilityName(BorderBase, key) {
      assert |ShadeName(key, Entries(value)[j].0)| > |UtilityName(BorderBase, key)|;
    }
  }

  /** Every shade of every non-`DEFAULT` colour is assigned. */
  lemma {:induction false} ColourWritesContainShade(entries: Props, i: nat, j: nat)
    requires i < |entries| && entries[i].0 != "DEFAULT" && j < |Entries(entries[i].1)|
    ensures (ShadeName(entries[i].0, Entries(entries[i].1)[j].0), ColourDeclaration(Entries(entries[i].1)[j].1))
      in ColourWrites(entries)
    decreases |entries|
  {
    var init := entries[..|entries| - 1];
    var (key, value) := entries[|entries| - 1];
    var w := (ShadeName(entries[i].0, Entries(entries[i].1)[j].0), ColourDeclaration(Entries(entries[i].1)[j].1));
    if i < |init| {
      assert init[i] == entries[i];
      ColourWritesContainShade(init, i, j);
    } else {
      assert EntryColourWrites(key, value)[j] == w;
    }
  }

  lemma GetMember(p: Props, k: string, v: Value)
    requires DistinctKeys(p) && (k, v) in p
    ensures Get(p, k) == Some(v)
  {
    var i :| 0 <= i < |p| && p[i] == (k, v);
    GetDistinctAt(p, i);
  }

  /** With hyphen-free colour names, `.squircle.border-<key>-<shade>` holds the
      shade's colour as background, and exists exactly when the table has that
      colour and shade. */
  lemma ShadeColourUtility(borderColor: Value, key: string, shade: string)
    requires PlainColourTable(Entries(borderColor))
    requires key != "DEFAULT" && '-' !in key
    ensures Get(ColourUtilities(borderColor), ShadeName(key, shade))
         == match Path(borderColor, [key, shade]) case None => None case Some(c) => Some(ColourDeclaration(c))
  {
    var entries := Entries(borderColor);
    ColourUtilitiesExact(borderColor);
    PathPair(borderColor, key, shade);
    if Get(entries, key).Some? && Get(Entries(Get(entries, key).value), shade).Some? {
      ShadeColourPresent(entries, key, shade);
    } else {
      ShadeColourAbsent(entries, key, shade);
    }
  }

  lemma ShadeColourPresent(entries: Props, key: string, shade: string)
    requires PlainColourTable(entries) && key != "DEFAULT"
    requires Get(entries, key).Some? && Get(Entries(Get(entries, key).value), shade).Some?
    ensures Get(ColourWrites(entries), ShadeName(key, shade))
         == Some(ColourDeclaration(Get(Entries(Get(entries, key).value), shade).value))
  {
    var i := KeyIndex(entries, key);
    var j := KeyIndex(Entries(entries[i].1), shade);
    ColourWritesContainShade(entries, i, j);
    ColourWritesDistinct(entries);
    GetMember(ColourWrites(entries), ShadeName(key, shade), ColourDeclaration(Entries(entries[i].1)[j].1));
  }

  lemma ShadeColourAbsent(entries: Props, key: string, shade: string)
    requires PlainColourTable(entries) && '-' !in key
    requires !(Get(entries, key).Some? && Get(Entries(Get(entries, key).value), shade).Some?)
    ensures Get(ColourWrites(entries), ShadeName(key, shade)).None?
  {
    var ws := ColourWrites(entries);
    NameKeyOfShadeName(key, shade);
    forall a | 0 <= a < |ws| ensures ws[a].0 != ShadeName(key, shade) {
      ColourWriteOrigin(entries, a);
    }
  }

  /** A colour given as a plain string is split into its characters: the host
      palette's `white: '#fff'` assigns one utility per character, keyed by its
      position, and none for the bare name. */
  lemma StringColourSplits()
    ensures ColourUtilities(Obj([("white", Str("#fff"))])) == [
      (".squircle.border-white-0", ColourDeclaration(Str("#"))),
      (".squircle.border-white-1", ColourDeclaration(Str("f"))),
      (".squircle.border-white-2", ColourDeclaration(Str("f"))),
      (".squircle.border-white-3", ColourDeclaration(Str("f")))]
  {
    var t := Obj([("white", Str("#fff"))]);
    StringColourPlain();
    ColourUtilitiesExact(t);
    assert ColourWrites(Entries(t)) == ColourWrites([]) + EntryColourWrites("white", Str("#fff"));
    StringShadeWrites();
  }

  lemma StringColourEntries()
    ensures Entries(Str("#fff")) == [("0", Str("#")), ("1", Str("f")), ("2", Str("f")), ("3", Str("f"))]
  {
    assert NatToString(0) == "0" && NatToString(1) == "1" && NatToString(2) == "2" && NatToString(3) == "3";
  }

  lemma StringColourPlain()
    ensures PlainColourTable(Entries(Obj([("white", Str("#fff"))])))
  {
    EntriesDistinct(Str("#fff"));
  }

  lemma StringShadeWrites()
    ensures ShadeWrites("white", Entries(Str("#fff"))) == [
      (".squircle.border-white-0", ColourDeclaration(Str("#"))),
      (".squircle.border-white-1", ColourDeclaration(Str("f"))),
      (".squircle.border-white-2", ColourDeclaration(Str("f"))),
      (".squircle.border-white-3", ColourDeclaration(Str("f")))]
  {
    StringColourEntries();
    assert ShadeName("white", "0") == ".squircle.border-white-0";
    assert ShadeName("white", "1") == ".squircle.border-white-1";
    assert ShadeName("white", "2") == ".squircle.border-white-2";
    assert ShadeName("white", "3") == ".squircle.border-white-3";
  }
}
