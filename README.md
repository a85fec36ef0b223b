# Squircle presets of tailfront/themes, in Dafny

The two Tailwind presets of tailfront/themes are modelled here, `src/base/preset.js` and
`src/themes/base/preset.js`. Each preset has a `theme` section and a plugin.

- **Colour callbacks.** `borderColor` and `ringColor` copy `colors` and override `DEFAULT`.
  `outlineColor`, `ringOffsetColor`, `accentColor` and `caretColor` alias other tables.
- **Shipped scales.** A radius scale and a width scale.
- **`extend.colors`.** `accent`, `type`, `container` and `stroke` palettes.
- **The squircle plugin.** It folds the resolved `borderRadius`, `borderWidth` and
  `borderColor` tables into three tables of utilities, each mapping a selector to a
  declaration. It registers them after a constant `.squircle` utility.

The plugin and the callbacks are the same text in both files:

- `src/themes/base/preset.js:104-166` matches `src/base/preset.js:120-182`.
- `src/themes/base/preset.js:25-56` matches `src/base/preset.js:47-78`.

So each is modelled once and cited at both places. The files differ only in `extend.colors`.
In the themes preset, `type` and `container` are the neutral palette with shade 50 replaced
by white.

The modules are:

- **`JsObject`** (`jsobject.dfy`) covers the JavaScript semantics the presets rely on.
  - A value is a string, an integer or an object.
  - An object is its own enumerable properties, in enumeration order.
  - `Put` is the assignment `o[k] = v` on an ordinary object, following section 10.1.11.1 of
    ECMA-262 (OrdinaryOwnPropertyKeys). An existing key keeps its place. A new array-index key
    such as `"8"` goes among the array indices, in ascending order. Any other new key goes last.
  - `Entries` is `Object.entries`. For a string it gives one `[index, character]` pair per
    character.
  - `SpreadWith` is `{...o, k: v}` and `Literal` is an object literal.
  - `Path` is property access along a path, with `undefined` as `None`.
- **`Squircle`** (`squircle.dfy`) is the plugin.
  - Each `reduce` is a method with a `while` loop over the entries, assigning into a fresh
    accumulator.
  - The `forEach` over a colour's shades is the inner method `AddShades`.
  - Each method is proved equal to a fold `PutAll` of a list of assignments: `RadiusWrites`,
    `WidthWrites` or `ColourWrites`. Lemmas state what that fold holds.
- **`BasePreset`** (`base_preset.dfy`) holds the `theme` callbacks, the shipped scales and the
  base `extend.colors`.
  - A callback `({ theme }) => ...` reads the theme after the host has resolved it. Here that
    theme is a parameter, and `theme(path, fallback)` is `Path` with a fallback.
  - A theme in which every callback's table holds what the callback computes is `Resolved`.
- **`ThemesBasePreset`** (`themes_base_preset.dfy`) holds the themes preset's `extend.colors`
  and how its plugin treats that preset's tables.

The model keeps two behaviours of the code exactly as they are.

- **Strings are split into characters.** The colour fold calls `Object.entries` on each colour
  value. A colour given as a plain string therefore yields one utility per character. For
  example, `white: '#fff'` yields `.squircle.border-white-0` with background `'#'`, and so on.
  `Squircle.StringColourSplits` shows this.
- **Later assignments win.** Two assignments to one selector keep the later value. In the shipped
  width scale `DEFAULT` is written first, yet it is enumerated last, after the array-index keys
  `0`, `2`, `4` and `8` (`BasePreset.BorderWidthEntries`).

## Model

| member | source | states |
|---|---|---|
| JsObject.IsArrayIndex | src/base/preset.js:74-77 | definition of the keys `0`, `2`, `4`, `8` that ECMAScript enumerates first; its meaning for the width table is stated by BasePreset.BorderWidthEntries |
| JsObject.Rank | src/base/preset.js:71-78 | definition of the enumeration rank, used by `Put`; stated by JsObject.PutKeepsEnumerationOrder |
| JsObject.Entries | src/base/preset.js:121 | definition of `Object.entries`, used at :121, :130, :156 and :159; its meaning is stated by JsObject.EntriesDistinct and Squircle.StringColourEntries |
| JsObject.Member | src/base/preset.js:53 | definition of `v[k]`; stated by JsObject.PathOne and JsObject.MemberWellFormed |
| JsObject.Path | src/base/preset.js:47-58 | definition of the property walk that `theme(path)` performs; its meaning is stated by JsObject.PathOne, JsObject.PathPair and JsObject.PathWellFormed |
| JsObject.PutAll | src/base/preset.js:121-129 | definition of the `reduce` over assignments into an accumulator; its meaning is stated by JsObject.GetPutAll and JsObject.PutAllFresh |
| JsObject.LastWrite | src/base/preset.js:121-129 | the independent reference for the fold: the last value assigned to a key; related to the fold by JsObject.GetPutAll |
| JsObject.Literal | src/base/preset.js:59-78 | definition of an object literal as assignments in written order; its meaning is stated by JsObject.LiteralEntries and BasePreset.BorderWidthEntries |
| JsObject.NatToString | src/base/preset.js:159 | the key `Object.entries` gives a string's character is a non-empty decimal numeral whose value is the character's index, with no leading zero |
| JsObject.NatToStringInjective | src/base/preset.js:159 | distinct character positions get distinct keys |
| JsObject.NonDigitIsNotIndex | src/base/preset.js:123-125 | a key with a non-digit character is not an array index, so assigning it keeps insertion order |
| JsObject.Get | src/base/preset.js:47-58 | `o[k]`, as the callbacks' `theme(...)` reads use it, is `undefined` exactly when no property is named `k`; the contracts of `Put` and the folds are stated through it |
| JsObject.Put | src/base/preset.js:125 | after `acc[name] = v`, `name` holds `v` and every other key keeps its value; the object grows by one exactly when `name` is new |
| JsObject.PutPastHead | src/base/preset.js:125 | a new key that does not rank below the first property is created after it |
| JsObject.PutBeforeHead | src/base/preset.js:125 | a new array-index key that ranks below the first property is created before it |
| JsObject.PutElements | src/base/preset.js:125 | an assignment introduces no property other than the one assigned |
| JsObject.PutAppends | src/base/preset.js:125 | assigning a new key that is not an array index appends it at the end |
| JsObject.PutKeepsDistinctKeys | src/base/preset.js:125 | an assignment never duplicates a key |
| JsObject.PutKeepsEnumerationOrder | src/base/preset.js:125 | an assignment keeps array-index keys first and in ascending order |
| JsObject.PutKeepsKeys | src/base/preset.js:125 | overwriting an existing key changes no key and no position |
| JsObject.PutAllSnoc | src/base/preset.js:121-129 | folding one more assignment is one more `Put` on the accumulator |
| JsObject.PutAllAppend | src/base/preset.js:156-171 | folding two lists of assignments in turn is folding their concatenation |
| JsObject.LastWriteAppend | src/base/preset.js:156-171 | in a concatenation the last assignment to a key comes from the second list when it has one |
| JsObject.GetPutAll | src/base/preset.js:121-129 | after a fold each key holds its last assigned value, and unassigned keys keep their old value |
| JsObject.PutAllFresh | src/base/preset.js:121-129 | assignments to distinct new non-index keys append them in order |
| JsObject.EntriesDistinct | src/base/preset.js:121 | `Object.entries` of a well-formed value gives distinct keys, string positions included |
| JsObject.MemberWellFormed | src/base/preset.js:49 | a property of a well-formed value is well formed |
| JsObject.PathWellFormed | src/base/preset.js:50 | a value found along a theme path of a well-formed theme is well formed |
| JsObject.PathOne | src/base/preset.js:53 | `theme('borderColor')` is property `borderColor` of the theme |
| JsObject.PathPair | src/base/preset.js:47 | `theme('colors.accent')` is `undefined` when `colors` is, and otherwise is `accent` of `colors` |
| JsObject.SpreadWith | src/base/preset.js:48-51 | `{...o, k: v}` is an object whose `k` is `v` and whose every other key is `o`'s, or `undefined` when `o` is |
| JsObject.SpreadAppends | src/base/preset.js:48-51 | spreading an object without `k` copies its properties in order and puts `k` last |
| JsObject.SpreadOverrides | src/base/preset.js:48-51 | spreading an object that has `k` keeps every key in its place |
| JsObject.SpreadDistinct | src/base/preset.js:48-51 | a spread with an override has distinct keys |
| JsObject.LiteralEntries | src/base/preset.js:59-70 | an object literal with distinct non-index keys enumerates in written order |
| Squircle.UtilityName | src/base/preset.js:124 | definition of the radius and width naming (also :133); stated by Squircle.UtilityNameInjective and Squircle.NoSuffixedDefault |
| Squircle.ShadeName | src/base/preset.js:164 | definition of `${base}-${key}-${shade}`; stated by Squircle.ShadeNameInjective and Squircle.NameKeyOfShadeName |
| Squircle.RadiusDeclaration | src/base/preset.js:125 | definition of `{'--squircle-radius': value}`; stated by Squircle.RadiusDeclarationCarriesValue |
| Squircle.WidthDeclaration | src/base/preset.js:134-151 | definition of the width template, with the constants `WidthLayout` (:135-140) and `OutlineLayer` (:142-148); stated by Squircle.WidthDeclarationVariesOnlyInOutline |
| Squircle.ColourDeclaration | src/base/preset.js:161-165 | definition of `{'&:after': {background: colour}}`; stated by Squircle.DefaultColourUtility and Squircle.ShadeColourUtility |
| Squircle.KeyedWrites | src/base/preset.js:121-129 | definition of the assignments of the radius or width fold, in entry order; stated by Squircle.KeyedWritesLookup and Squircle.KeyedWritesAppend |
| Squircle.RadiusWrites | src/base/preset.js:121-129 | definition of the radius fold's assignments; stated by Squircle.RadiusUtilityOfKey |
| Squircle.WidthWrites | src/base/preset.js:130-155 | definition of the width fold's assignments; stated by Squircle.WidthUtilityOfKey |
| Squircle.ShadeWrites | src/base/preset.js:163-166 | definition of the shade `forEach`'s assignments; stated by Squircle.EntryColourWritesShape |
| Squircle.EntryColourWrites | src/base/preset.js:157-168 | definition of what one colour entry assigns; stated by Squircle.EntryWritesToSquircle and Squircle.EntryColourWritesShape |
| Squircle.ColourWrites | src/base/preset.js:156-171 | definition of the colour fold's assignments, entry by entry; stated by Squircle.ColourWriteOrigin and Squircle.ColourWritesContainShade |
| Squircle.RadiusUtilities | src/base/preset.js:121-129 | definition of `shape`; stated by Squircle.RadiusUtilityOfKey |
| Squircle.WidthUtilities | src/base/preset.js:130-155 | definition of `border`; stated by Squircle.WidthUtilityOfKey |
| Squircle.ColourUtilities | src/base/preset.js:156-171 | definition of `borderColor`; stated by Squircle.DefaultColourUtility and Squircle.ShadeColourUtility |
| Squircle.Registrations | src/base/preset.js:172-181 | definition of the four `addUtilities` calls: the constant `.squircle` utility (`SquircleConstants`, :174-177) without variants, then the three tables with `responsive`; stated by Squircle.Plugin |
| Squircle.PluginCalls | src/base/preset.js:120-182 | definition of the plugin's effect: a TypeError when a table is undefined, the registrations otherwise; stated by Squircle.Plugin |
| Squircle.ShapeUtilities | src/base/preset.js:121-129 | the radius `reduce` gives the fold of its assignments; without duplicate keys it is exactly one `.squircle.rounded[-key]` per entry, in order |
| Squircle.BorderUtilities | src/base/preset.js:130-155 | the width `reduce` gives the fold of its assignments; without duplicate keys it is exactly one `.squircle.border[-key]` per entry, in order |
| Squircle.AddShades | src/base/preset.js:163-166 | the shade `forEach` assigns `.squircle.border-<key>-<shade>` for each shade in turn, on top of the accumulator |
| Squircle.BorderColorUtilities | src/base/preset.js:156-171 | the colour `reduce` gives the fold of `.squircle` for `DEFAULT` and one selector per shade of every other key |
| Squircle.KeyedWritesStep | src/base/preset.js:122-126 | one more radius or width entry is one more assignment |
| Squircle.ShadeWritesStep | src/base/preset.js:163-166 | one more shade is one more assignment |
| Squircle.ColourWritesStep | src/base/preset.js:157-168 | a `DEFAULT` entry assigns `.squircle`, and any other entry assigns its shades |
| Squircle.Plugin | src/base/preset.js:120-182 | the plugin throws a TypeError exactly when the theme lacks `borderRadius`, `borderWidth` or `borderColor`; otherwise it registers `.squircle`, then the radius, width and colour tables with the `responsive` variant |
| Squircle.PluginIsDeterministic | src/themes/base/preset.js:104-166 | two runs of the plugin on one theme register the same utilities; this restates, for two calls, that `Plugin` is a function of the theme, and follows directly from `Plugin`'s contract |
| Squircle.UtilityNameInjective | src/base/preset.js:123-124 | radius and width naming is injective: distinct keys give distinct selectors |
| Squircle.NoSuffixedDefault | src/base/preset.js:132-133 | no key is named `<base>-DEFAULT`, and a key gets the bare base exactly when it is `DEFAULT` |
| Squircle.KeyedWritesAppend | src/themes/base/preset.js:105-139 | without duplicate keys no radius or width assignment overwrites another, so each fold has one entry per key |
| Squircle.KeyedWritesLookup | src/themes/base/preset.js:107-109 | the selector of key `k` exists exactly when `k` is a key, and holds the declaration of `k`'s value |
| Squircle.RadiusUtilityOfKey | src/base/preset.js:123-125 | `.squircle.rounded[-k]` is `{'--squircle-radius': v}` for `k`'s value `v`, exists exactly for the table's keys, and the table has one entry per key |
| Squircle.WidthUtilityOfKey | src/themes/base/preset.js:116-135 | `.squircle.border[-k]` is the width template for `k`'s value, exists exactly for the table's keys, and the table has one entry per key |
| Squircle.RadiusDeclarationCarriesValue | src/base/preset.js:125 | the radius declaration's `--squircle-radius` is the value unchanged, and it has no other field |
| Squircle.WidthDeclarationVariesOnlyInOutline | src/base/preset.js:134-150 | `'&:after'`'s `--squircle-outline` is the width value; every other field, top level and inside `'&:after'`, is the same for any two values |
| Squircle.WidthOutsideLayer | src/themes/base/preset.js:118-124 | the width declaration's fields other than `'&:after'` are the fixed layout |
| Squircle.WidthAfterLayer | src/themes/base/preset.js:125-134 | `'&:after'` is the fixed outline layer followed by `--squircle-outline` |
| Squircle.OutlineLayerLookup | src/base/preset.js:141-150 | inside `'&:after'` only `--squircle-outline` depends on the value |
| Squircle.UpToHyphenOf | src/base/preset.js:164 | the name part before the first hyphen after the base is the colour key, when the key has no hyphen |
| Squircle.NameKeyOfShadeName | src/base/preset.js:164 | a shade selector of a hyphen-free key splits back into that key and shade, and is never `.squircle` |
| Squircle.ShadeNameInjective | src/base/preset.js:164 | under one key, distinct shades give distinct selectors |
| Squircle.PlainWithDefault | src/base/preset.js:48-51 | overriding `DEFAULT` in a hyphen-free, duplicate-free colour table keeps it so |
| Squircle.DistinctConcat | src/base/preset.js:156-171 | two lists of assignments with distinct, disjoint selectors concatenate to distinct selectors |
| Squircle.PlainPrefix | src/base/preset.js:156-171 | dropping the last colour keeps the table plain, and its key is not among the others |
| Squircle.ColourOriginGrows | src/base/preset.js:156-171 | a selector that comes from a colour and shade still does when more colours follow |
| Squircle.ColourOriginOfLast | src/base/preset.js:160-166 | the selectors a colour entry with a hyphen-free key assigns come from that entry |
| Squircle.ColourWriteOrigin | src/base/preset.js:156-171 | with hyphen-free colour names, every colour assignment is `.squircle` from a `DEFAULT` entry, or the selector of a shade that the table has under the key named in the selector |
| Squircle.EntryColourWritesDistinct | src/base/preset.js:163-166 | one colour's shades get distinct selectors |
| Squircle.ColourWritesDistinct | src/base/preset.js:156-171 | with hyphen-free colour names no two colour assignments share a selector |
| Squircle.ColourWritesAreDotNames | src/base/preset.js:158-165 | every colour selector starts with `.` |
| Squircle.ColourUtilitiesExact | src/base/preset.js:156-171 | with hyphen-free colour names the colour table is exactly the list of assignments, in order |
| Squircle.DefaultColourLastWrite | src/base/preset.js:160-161 | the last assignment to `.squircle` is `DEFAULT`'s declaration, and there is none without a `DEFAULT` key |
| Squircle.EntryWritesToSquircle | src/base/preset.js:160-166 | a colour entry writes `.squircle` exactly when its key is `DEFAULT` |
| Squircle.NoWriteTo | src/base/preset.js:163-166 | a list that never names a selector leaves it unassigned |
| Squircle.DefaultColourUtility | src/base/preset.js:160-161 | `.squircle` is `{'&:after': {background: v}}` for `DEFAULT`'s value `v`, and is absent without `DEFAULT` |
| Squircle.EntryColourWritesShape | src/base/preset.js:162-166 | a non-`DEFAULT` colour writes one selector per shade, carrying that shade's colour, and none for the bare `.squircle.border-<key>` |
| Squircle.ColourWritesContainShade | src/themes/base/preset.js:146-151 | every shade of every non-`DEFAULT` colour is assigned |
| Squircle.GetMember | src/base/preset.js:165 | in a duplicate-free table a present pair is what lookup returns |
| Squircle.ShadeColourUtility | src/base/preset.js:162-166 | with hyphen-free colour names, `.squircle.border-<key>-<shade>` has that shade's colour as background, and exists exactly when the table has that colour and shade |
| Squircle.ShadeColourPresent | src/base/preset.js:163-165 | with hyphen-free colour names, a shade the table has is assigned its colour |
| Squircle.ShadeColourAbsent | src/base/preset.js:156-171 | with hyphen-free colour names, a shade the table lacks is never assigned |
| Squircle.StringColourSplits | src/base/preset.js:159-165 | a colour table `{white: '#fff'}` gives `.squircle.border-white-0` to `-3` with backgrounds `#`, `f`, `f`, `f` |
| Squircle.StringColourEntries | src/base/preset.js:159 | `Object.entries('#fff')` is its four characters keyed `0` to `3` |
| Squircle.StringColourPlain | src/base/preset.js:159 | `{white: '#fff'}` is a hyphen-free table without duplicates |
| Squircle.StringShadeWrites | src/base/preset.js:163-165 | the shade assignments of `'#fff'` under `white` are the four character utilities |
| BasePreset.ThemeValue | src/base/preset.js:50 | definition of `theme(path, fallback)` (also :56); stated by BasePreset.BorderColorOverridesDefault and BasePreset.RingColorOverridesDefault |
| BasePreset.ColoursWithDefault | src/base/preset.js:48-51 | definition of `{...theme('colors'), DEFAULT: d}` (also :54-57); stated by BasePreset.ColoursWithDefaultMembers and BasePreset.ColoursWithDefaultOrder |
| BasePreset.BorderColor | src/base/preset.js:48-51 | definition of the `borderColor` callback; stated by BasePreset.BorderColorOverridesDefault |
| BasePreset.RingColor | src/base/preset.js:54-57 | definition of the `ringColor` callback; stated by BasePreset.RingColorOverridesDefault |
| BasePreset.AccentColor | src/base/preset.js:47 | definition of the `accentColor` callback, which `caretColor` (:52) repeats; stated by BasePreset.AliasesResolve |
| BasePreset.OutlineColor | src/base/preset.js:53 | definition of the `outlineColor` callback; stated by BasePreset.AliasesResolve |
| BasePreset.RingOffsetColor | src/base/preset.js:58 | definition of the `ringOffsetColor` callback; stated by BasePreset.AliasesResolve |
| BasePreset.Resolved | src/base/preset.js:47-58 | definition of a theme in which every callback's table is its own result |
| BasePreset.ExtendColors | src/base/preset.js:110-117 | definition of the base `extend.colors`; stated by BasePreset.ExtendColorsEntries |
| BasePreset.ColoursWithDefaultMembers | src/base/preset.js:48-51 | `{...theme('colors'), DEFAULT: d}` has `DEFAULT` equal to `d` and every other key equal to that colour of the theme |
| BasePreset.BorderColorOverridesDefault | src/base/preset.js:48-51 | `borderColor` is `colors` with `DEFAULT` set to `colors.stroke.200`, or to `'currentColor'` where the theme lacks it |
| BasePreset.RingColorOverridesDefault | src/base/preset.js:54-57 | `ringColor` is `colors` with `DEFAULT` set to `colors.accent.500`, or to `'#60A5FA'` where the theme lacks it |
| BasePreset.ColoursWithDefaultOrder | src/themes/base/preset.js:26-29 | the override keeps the colours' order: an existing `DEFAULT` keeps its place, otherwise `DEFAULT` is added last |
| BasePreset.AliasesResolve | src/base/preset.js:52-58 | in a resolved theme `outlineColor` is the whole `borderColor` table, `ringOffsetColor` the whole `ringColor` table, and `caretColor` is `accentColor` |
| BasePreset.ColoursWithDefaultDistinct | src/themes/base/preset.js:32-35 | a colour table built by a callback has no duplicate key |
| BasePreset.RadiusScaleDistinct | src/base/preset.js:59-70 | the shipped radius keys are distinct |
| BasePreset.BorderRadiusEntries | src/base/preset.js:59-70 | the shipped radius table enumerates in written order |
| BasePreset.BorderWidthEntries | src/base/preset.js:71-78 | the shipped width table enumerates `0`, `2`, `4`, `8` and then `DEFAULT`, although `DEFAULT` is written first |
| BasePreset.WidthFold1 | src/base/preset.js:73-74 | after `DEFAULT` and `0`, the width literal is `0`, `DEFAULT` |
| BasePreset.WidthFold2 | src/base/preset.js:73-75 | after `2`, it is `0`, `2`, `DEFAULT` |
| BasePreset.WidthFold4 | src/base/preset.js:73-76 | after `4`, it is `0`, `2`, `4`, `DEFAULT` |
| BasePreset.DefaultRanksLast | src/base/preset.js:73 | `DEFAULT` is not an array index and ranks after the numbered keys |
| BasePreset.WidthStepDefault | src/base/preset.js:74-77 | a numbered width key is created before `DEFAULT` |
| BasePreset.WidthStep0 | src/base/preset.js:74 | `0` is created before `DEFAULT` |
| BasePreset.WidthStep2 | src/base/preset.js:75 | `2` is created after `0` and before `DEFAULT` |
| BasePreset.WidthStep4 | src/base/preset.js:76 | `4` is created after `2` and before `DEFAULT` |
| BasePreset.WidthStep8 | src/base/preset.js:77 | `8` is created after `4` and before `DEFAULT` |
| BasePreset.ShippedRadiusWrites | src/themes/base/preset.js:37-48 | the radius fold of the shipped scale overwrites nothing: its table is its list of assignments |
| BasePreset.ShippedRadiusSelectors | src/base/preset.js:59-70 | the shipped radius scale yields nine utilities, one per key in order, `DEFAULT` as `.squircle.rounded` |
| BasePreset.ShippedRadiusDefault | src/base/preset.js:63 | `.squircle.rounded` is `{'--squircle-radius': '4px'}` |
| BasePreset.ShippedRadiusNoSuffixedDefault | src/base/preset.js:121-129 | the shipped radius table has no `.squircle.rounded-DEFAULT` |
| BasePreset.ShippedWidthWrites | src/themes/base/preset.js:49-56 | the width fold of the shipped scale overwrites nothing: its table is its list of assignments in enumeration order |
| BasePreset.WidthKeysDistinct | src/base/preset.js:71-78 | the shipped width keys are distinct |
| BasePreset.ShippedWidthSelectors | src/themes/base/preset.js:49-56 | the shipped width scale yields five utilities: `.squircle.border-0`, `-2`, `-4`, `-8`, then `.squircle.border` at 1px |
| BasePreset.SquircleTakesStroke | src/base/preset.js:50 | through the preset's `borderColor`, the plugin's `.squircle` paints `colors.stroke.200`, or `currentColor` where the theme lacks it |
| BasePreset.ExtendColorsEntries | src/base/preset.js:110-117 | `extend.colors` is `accent` blue, then `type`, `container` and `stroke` neutral, in that order |
| ThemesBasePreset.NeutralOnWhite | src/themes/base/preset.js:91-94 | definition of `{...colors.neutral, 50: colors.white}`; stated by ThemesBasePreset.ExtendColorsShades and ThemesBasePreset.NeutralOnWhiteOrder |
| ThemesBasePreset.ExtendColors | src/themes/base/preset.js:88-101 | definition of this preset's `extend.colors`; stated by ThemesBasePreset.ExtendColorsEntries and ThemesBasePreset.ExtendColorsShades |
| ThemesBasePreset.ExtendColorsEntries | src/themes/base/preset.js:88-101 | `extend.colors` is `accent` blue, `type` and `container` neutral-on-white, and `stroke` neutral, in that order |
| ThemesBasePreset.ExtendColorsMembers | src/themes/base/preset.js:89-99 | each of the four palettes is found under its name |
| ThemesBasePreset.ExtendColorsShades | src/themes/base/preset.js:91-99 | `type` and `container` are white at shade 50 and neutral at every other shade; `stroke` is neutral unchanged and `accent` is blue |
| ThemesBasePreset.NeutralOnWhiteOrder | src/themes/base/preset.js:91-94 | replacing shade 50 keeps neutral's key order when neutral has a shade 50, and keeps the object properly ordered in any case |
| ThemesBasePreset.BorderColorPlain | src/themes/base/preset.js:26-29 | with hyphen-free colour names, the `borderColor` table is hyphen-free and duplicate-free too |
| ThemesBasePreset.TypeBorderUtilities | src/themes/base/preset.js:140-155 | with hyphen-free colour names and this preset's `type`, `.squircle.border-type-50` is painted white and every other `type` shade neutral, or is absent where neutral lacks that shade |
| ThemesBasePreset.TypeShade | src/themes/base/preset.js:26-29 | `borderColor.type` at a shade is white at 50 and neutral elsewhere |
| ThemesBasePreset.ShippedPlugin | src/themes/base/preset.js:104-166 | with the shipped scales the plugin registers `.squircle`, the nine radius utilities, the five width utilities in enumeration order and the colour utilities |

## Left out

- `addUtilities` itself is left out: the host framework's registration, the `responsive` variant
  and the merge of the constant `.squircle` utility with the colour table's `.squircle` entry.
  The plugin is modelled as the list of calls it makes.
- The host's resolution of `theme()` is left out: dotted paths with brackets, alpha modifiers,
  and calling function values. `theme(path)` is modelled as property access on a theme that is
  already resolved. The fixpoint in which every callback reads the theme that it helps to build
  is modelled only as the predicate `Resolved`.
- Merging of presets and of `extend` into `colors` is the host's behaviour and is left out. The
  `extend.colors` tables are modelled by themselves, and lemmas about the plugin take the
  merged `colors` as a hypothesis.
- The `tailwindcss/colors` palettes (`blue`, `neutral`, `white`) are external data. They are
  parameters.
- The `paint(squircle)` worklet and what the declarations mean as CSS are outside the code.
- `fontFamily` is static data with no behaviour, so it is left out.
- Strings are sequences of characters, not UTF-16 code units. Splitting a string with
  characters outside the basic plane would differ.
- `null`, booleans, arrays and functions as table values are left out. Of the values JavaScript
  allows, only strings, integers and plain objects are modelled. Fractional numbers are left out.
- Squircle.ShadeColourUtility: stated only for colour tables whose key names have no hyphen. For
  `{a: {'b-c': x}, 'a-b': {c: y}}` both colours give `.squircle.border-a-b-c`, and the later
  assignment wins. The general fold still models that case.
- Squircle.ColourUtilitiesExact: stated only for hyphen-free colour names, for the same reason.
- ThemesBasePreset.TypeBorderUtilities: stated for a `colors` table whose `type` is this preset's
  palette. Obtaining that `colors` from the merged `extend` is the host's behaviour. It is also
  stated only for `colors` whose key names have no hyphen, for the reason given for
  Squircle.ShadeColourUtility.
- Squircle.ColourWriteOrigin, Squircle.ColourOriginOfLast, Squircle.ShadeColourPresent and
  Squircle.ShadeColourAbsent: stated only for hyphen-free colour names. In `{a: {}, 'a-b': {c: 'y'}}`
  the table has no shade `b-c` under `a`, yet `.squircle.border-a-b-c` is assigned.
- Squircle.RadiusUtilityOfKey and Squircle.WidthUtilityOfKey: stated for tables without
  duplicate keys. Every JavaScript object satisfies this, and so does every well-formed model
  value.
