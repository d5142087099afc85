# Tailwind token generator, modelled in Dafny

This project models the design-token pipeline of the `tailwind-config` package.

The **generator** (`packages/tailwind-config/lib/index.ts`) reads three lists of style records: fill, effect and text styles. From them it builds one object per category: `color`, `borderColor`, `divideColor`, `backgroundColor`, `textColor`, `text`, `shadow`, `animate` and `typography`. Each object holds some of `themeCss`, `componentsCss`, `twMergeKeys` and `docsMeta`. `buildConfig` then transposes the category-keyed object into the four exported objects. Two helpers do the formatting:
- `rgbToHex` writes colours in CSS hex notation (section 5.2 of CSS Color Module Level 4);
- `formatEffect` writes one `box-shadow` layer.

The **normaliser** (`fileRESTResponseToStylesJSON` in `packages/tailwind-config/scripts/from-figma.ts`) works on the design tool's style list. It:
- sorts the styles by `sort_position`;
- dispatches on the style type;
- collapses the spaces around `/` in names;
- drops fill styles whose first paint is not solid.

Modules, one per concern:
- `Strings`: prefix and suffix tests, `join` and `split`.
- `Seqs`: `map` and `filter` on sequences.
- `Sorting`: the stable sort behind `toSorted`.
- `Color`: `rgbToHex`, and a parser that is its inverse.
- `Tokens`: the shared record types.
- `Config`: `buildConfig`.
- `Colors`: the five colour categories.
- `Text`: the font-size scale.
- `Shadows`: `formatEffect` and the `shadow` category.
- `Animate`: the animation table.
- `Typography`: the typography components.
- `Generator`: the exported `buildConfig({...})` call.
- `FromFigma`: the normaliser.

Each category builder is a `method` with a `for` loop over local accumulators, as in the source. It is proved against a specification function: `Map`/`Filter` over the styles, or a per-entry list function. Lemmas about those functions state what the source promises.

The pieces the source does not show are parameters:
- `kebabCase`;
- `comparePaths`;
- `localeCompare`, as a "less or equal" predicate;
- the rendering of a number by a template literal (`Show`), whose result is restricted to characters a JavaScript number can print.

Colour channels are bytes that have already been rounded.

## Model

| member | source | states |
|---|---|---|
| Color.RgbToHex | packages/tailwind-config/lib/index.ts:22-33 | The result starts with `#`. It has 7 characters when alpha is exactly 1, and 9 otherwise. |
| Color.RgbToHexDigits | packages/tailwind-config/lib/index.ts:22-33 | Every character after the `#` is a lower-case hex digit. |
| Color.PaddedHexIsToHex | packages/tailwind-config/lib/index.ts:23-26 | The padded `toString(16)` of a channel is exactly its two hex digits, high digit first. A value below 16 gets the padding `0` in front. |
| Color.ToHex | packages/tailwind-config/lib/index.ts:23-26 | Two hex digits whose value is the channel. |
| Color.ToBase16Digits | packages/tailwind-config/lib/index.ts:24 | `toString(16)` gives hex digits whose value is the number, with no leading zero. |
| Color.HexRoundTrip | packages/tailwind-config/lib/index.ts:22-33 | Parsing the hex string gives back the colour, so no two colours share a hex form. |
| Color.ParseHexCanonical | packages/tailwind-config/lib/index.ts:22-33 | Every string the parser accepts is exactly `rgbToHex` of the colour it reads, so the hex forms are exactly the parseable strings. |
| Shadows.FormatEffectInset | packages/tailwind-config/lib/index.ts:36-45 | A layer starts with `inset ` if and only if the effect type is `INNER_SHADOW`. |
| Shadows.FormatEffectParts | packages/tailwind-config/lib/index.ts:43-44 | Splitting the layer (without the prefix) at spaces gives exactly five parts, in order: x px, y px, radius px, spread px, then the hex colour. |
| Shadows.LayerPartsHaveNoSpace | packages/tailwind-config/lib/index.ts:43 | None of the five parts contains a space. |
| Shadows.NumeralHasNoSpace | packages/tailwind-config/lib/index.ts:43 | A printed number contains no space and does not start with `i`. |
| Config.BuildConfig | packages/tailwind-config/lib/index.ts:68-81 | For every category T and key K of `input[T]`, `result[K][T] == input[T][K]`. `result[K]` exists only when some category has K, and is never empty. The result equals `Transpose(input)`. |
| Config.TransposeSpec | packages/tailwind-config/lib/index.ts:68-81 | The three pointwise transpose facts hold for the reference definition. |
| Config.TransposeUnique | packages/tailwind-config/lib/index.ts:68-81 | Any map with the three pointwise facts is the transpose, so the facts specify `buildConfig` completely. |
| Config.TransposeRow | packages/tailwind-config/lib/index.ts:71-77 | A row that holds every category with key K, and nothing else, is row K of the transpose. |
| Config.TransposeAt | packages/tailwind-config/lib/index.ts:68-81 | Entry `[T][K]` of the input holds `v` if and only if entry `[K][T]` of the transpose holds `v`. |
| Config.TransposeTwice | packages/tailwind-config/lib/index.ts:68-81 | Transposing twice gives back the input when no category is empty. |
| Colors.WithPrefixSelects | packages/tailwind-config/lib/index.ts:121 | The prefix filter keeps each style whose name has the prefix, as often as it occurs, and drops every other style. |
| Colors.WithPrefixFills | packages/tailwind-config/lib/index.ts:121 | Filtering keeps every style's first fill readable. |
| Colors.PrimitiveStylesFills | packages/tailwind-config/lib/index.ts:88-90 | Selecting and sorting the primitive styles keeps every style's first fill readable. |
| Colors.PrimitiveSelection | packages/tailwind-config/lib/index.ts:88-90 | The primitive styles are exactly the `Primitive/` fill styles, with their multiplicities. They are in ascending `comparePaths` order when it is a total preorder. |
| Colors.FillHexAlpha | packages/tailwind-config/lib/index.ts:94-98 | The hex of a style's first fill encodes its red, green and blue channels. Alpha is `opacity` when the fill has one, and the colour's own alpha otherwise. The short form is used exactly when that alpha is 1. |
| Colors.EmitPrimitives | packages/tailwind-config/lib/index.ts:92-107 | The loop pushes one declaration and one documentation item per style, in order. |
| Colors.BuildColor | packages/tailwind-config/lib/index.ts:84-115 | `themeCss` is the newline-joined declarations and `docsMeta` the items of the sorted primitive styles. Nothing else is returned. |
| Colors.ReadDeclOf | packages/tailwind-config/lib/index.ts:100 | Reading a `key: #hex;` declaration gives back the colour. |
| Colors.PrimitiveEntry | packages/tailwind-config/lib/index.ts:93-100 | A primitive declaration sets `--color-<kebab(name)>` to the colour of the style's first fill. |
| Colors.PrimitiveLayout | packages/tailwind-config/lib/index.ts:92-107 | Declaration `i` of the primitive list reads back as `--color-<kebab(name i)>` set to the colour of style `i`'s first fill. Item `i` carries style `i`'s name, that declaration and its hex colour. |
| Colors.DescribeSemantic | packages/tailwind-config/lib/index.ts:124-139 | One iteration computes the declaration and the swatch item of one selected style. |
| Colors.EmitSemantic | packages/tailwind-config/lib/index.ts:123-140 | The loop of a semantic colour category pushes one declaration and one item per selected style, in order. |
| Colors.BuildSemanticColor | packages/tailwind-config/lib/index.ts:117-253 | `themeCss` and `docsMeta` hold the declarations and items of the styles with the category's prefix, in input order. The four categories differ only in their rule. |
| Colors.SemanticEntry | packages/tailwind-config/lib/index.ts:124-132 | A semantic declaration sets the category's key, built from the unprefixed name, to the colour of the style's first fill. |
| Colors.SemanticLayout | packages/tailwind-config/lib/index.ts:123-140 | Declaration `i` is the semantic declaration of style `i` and reads back as the category key set to its colour. Item `i` has the style's name, the class prefix followed by the kebab-cased semantic name, the preview class built from the key, and the hex colour. |
| Colors.BackgroundActionDefault | packages/tailwind-config/lib/index.ts:192-196 | A background name loses its trailing `/Default` if and only if the unprefixed name starts with `Action/` and ends with `/Default`. Otherwise it is unchanged. |
| Colors.OtherSemanticNames | packages/tailwind-config/lib/index.ts:124-229 | Text colours lose `Semantic/Text/`. Border and divide colours lose `Semantic/Border` and keep the slash after it. |
| Colors.BackgroundActionExample | packages/tailwind-config/lib/index.ts:192-196 | `Semantic/Bg/Action/Primary/Default` becomes `Action/Primary`. |
| Colors.BackgroundSurfaceExample | packages/tailwind-config/lib/index.ts:192-196 | `Semantic/Bg/Surface/Default` keeps its `/Default`. |
| Text.EmitSizes | packages/tailwind-config/lib/index.ts:275-291 | The loop pushes the two declarations and one item of each step, in table order. |
| Text.BuildText | packages/tailwind-config/lib/index.ts:255-299 | `themeCss` joins the scale's declarations and `docsMeta` holds its items. |
| Text.SizeDeclsLayout | packages/tailwind-config/lib/index.ts:281-284 | There are exactly two declarations per step. Declaration `2i` is `--text-<name>` of step `i` and declaration `2i+1` is its `--line-height`. |
| Text.ScaleDeclsAt | packages/tailwind-config/lib/index.ts:274-284 | For step `i` of the scale, declaration `2i` sets `--text-<name>` to the font size in rem, the pixel size over 16. Declaration `2i+1` sets its `--line-height` to a `calc` of two rem values that evaluates to the pixel line height over the pixel font size, a unitless ratio of at least 1. |
| Text.FontSizeScaleShape | packages/tailwind-config/lib/index.ts:260-273 | The scale has 12 steps, with distinct names and strictly growing font sizes. Line heights do not decrease, and no line height is below its font size. |
| Shadows.ShadowName | packages/tailwind-config/lib/index.ts:309-311 | `Elevation/` is removed when present. Otherwise `Elevation ` is removed when present. Otherwise the name is unchanged. |
| Shadows.ShadowNameExamples | packages/tailwind-config/lib/index.ts:309-311 | `Elevation/Raised` becomes `Raised`, and `Elevation Raised/2` becomes `Raised/2`. |
| Shadows.FindFill | packages/tailwind-config/lib/index.ts:319 | `find` returns a fill style with that name, or nothing exactly when there is none. |
| Shadows.FindFillFirst | packages/tailwind-config/lib/index.ts:319 | The style found is the first with that name. |
| Shadows.PreviewColorFallback | packages/tailwind-config/lib/index.ts:318-323 | The preview is the `Primitive/<type>/700` colour when that style exists, and otherwise the `Primitive/White` colour. It is absent only when neither exists, and is always a valid hex colour. |
| Shadows.DescribeShadow | packages/tailwind-config/lib/index.ts:308-339 | One iteration computes the declaration, the merge key and the documentation item of one style. |
| Shadows.ShadowStep | packages/tailwind-config/lib/index.ts:325-339 | Each iteration extends the three outputs by the images of the current style. |
| Shadows.EmitShadows | packages/tailwind-config/lib/index.ts:308-340 | The loop emits exactly one declaration, one merge key and one item per style, in order. |
| Shadows.BuildShadow | packages/tailwind-config/lib/index.ts:301-349 | The three outputs are over the effect styles sorted by `comparePaths`. `themeCss` is newline-joined and no `componentsCss` is returned. |
| Shadows.ShadowLayout | packages/tailwind-config/lib/index.ts:312-339 | Entry `i` declares `--shadow-<key>` as the layers joined by `, `, and its merge key is `kebab(unprefixedName)`. Its item has class `shadow-<key>`, the type, the level, the preview colour and the same value. |
| Shadows.ShadowOrder | packages/tailwind-config/lib/index.ts:306 | The sorted styles are a permutation of the input. They are in ascending `comparePaths` order when it is a total preorder. |
| Sorting.SortBy | packages/tailwind-config/lib/index.ts:306 | `toSorted` returns a permutation of its input. |
| Sorting.SortBySorted | packages/tailwind-config/lib/index.ts:306 | With a total-preorder comparator, the result is in ascending order. |
| Sorting.InsertTies | packages/tailwind-config/lib/index.ts:306 | Inserting an element after every element whose key is not above its own keeps the order of each class of equal keys, with the new element in front of its class. |
| Sorting.SortByStable | packages/tailwind-config/lib/index.ts:306 | With a total-preorder comparator, the sort is stable: for every key k, the elements whose keys compare equal to k appear in the result in the same order as in the input. |
| Animate.EmitAnimations | packages/tailwind-config/lib/index.ts:373-377 | The loop pushes one declaration and one merge key per table entry, in order. |
| Animate.BuildAnimate | packages/tailwind-config/lib/index.ts:351-383 | `themeCss` joins the declarations and `twMergeKeys` lists the names. There are no docs. |
| Animate.MergeKeysMatchDecls | packages/tailwind-config/lib/index.ts:373-377 | There are as many declarations as merge keys, and declaration `i` is `--animate-<key i>: <value i>;`. |
| Animate.AnimationsDistinct | packages/tailwind-config/lib/index.ts:355-371 | The table has 15 entries with distinct names. |
| Animate.MergeKeysDistinct | packages/tailwind-config/lib/index.ts:373-382 | The `animate` category's merge keys are 15 names, no two alike. |
| Typography.DescribeTextStyle | packages/tailwind-config/lib/index.ts:389-420 | A non-regular body style or a link style gets a name-only item and no rule. Any other style gets its rule and its item. |
| Typography.TypographyStep | packages/tailwind-config/lib/index.ts:391-420 | Each iteration appends a rule only for a style with a component, and an item for every style. |
| Typography.EmitTypography | packages/tailwind-config/lib/index.ts:389-421 | The rules are those of the styles with a component, and the items are those of all styles, both in input order. |
| Typography.BuildTypography | packages/tailwind-config/lib/index.ts:385-429 | `componentsCss` joins the rules with blank lines, and `docsMeta` holds one item per text style. |
| Typography.TypographyItemAt | packages/tailwind-config/lib/index.ts:391-420 | Item `i` is name-only exactly when style `i` is a non-regular body style or a link style. Otherwise it carries the class and the preview. |
| Typography.ComponentsMatchItems | packages/tailwind-config/lib/index.ts:398-420 | The rules and the items with a class correspond one to one, in order. Rule `j`'s selector is item `j`'s class. |
| Typography.DocumentedAreStyled | packages/tailwind-config/lib/index.ts:391-420 | The items with a class are exactly the items of the styles with a component. |
| Typography.StyledEntry | packages/tailwind-config/lib/index.ts:398-420 | A style with a component is documented with its class, and its rule opens with `.<class> {`. |
| Typography.LetterSpacingZero | packages/tailwind-config/lib/index.ts:408-419 | The letter spacing prints as `0` if and only if it is 0. Otherwise it ends in `em`. |
| Typography.NameOnlyExamples | packages/tailwind-config/lib/index.ts:391 | `Body/Small Bold` and `Link/Default` are name-only. |
| Typography.ComponentExamples | packages/tailwind-config/lib/index.ts:391 | `Body/Small Regular` and `Heading/H1` get components. |
| Typography.ClassNameRule | packages/tailwind-config/lib/index.ts:398 | For every name, a trailing ` Regular` is removed before kebab-casing, and any other name is kebab-cased as it is. |
| Typography.ClassNameExample | packages/tailwind-config/lib/index.ts:398 | Two examples: `Body/Small Regular` becomes `typography-` and the kebab of `Body/Small`, and `Heading/H1` is kebab-cased whole. |
| Generator.Entries | packages/tailwind-config/lib/index.ts:60-65 | A category's object has exactly the keys whose values it returns, each with its value. |
| Generator.InputKinds | packages/tailwind-config/lib/index.ts:83-430 | Every category returns `themeCss` except `typography`. Only `typography` returns `componentsCss`. Only `shadow` and `animate` return `twMergeKeys`. Every category returns `docsMeta` except `animate`. |
| Generator.Row | packages/tailwind-config/lib/index.ts:68-81 | In the transpose, row K holds exactly the categories that return K. |
| Generator.ExportedKinds | packages/tailwind-config/lib/index.ts:83 | Each of the four exported objects holds exactly the categories that return it. |
| Generator.ColorCategories | packages/tailwind-config/lib/index.ts:84-253 | The five colour categories are the primitive category over the sorted `Primitive/` styles and the four semantic categories, each over the styles with its prefix. |
| Generator.OtherCategories | packages/tailwind-config/lib/index.ts:255-429 | The `text`, `shadow`, `animate` and `typography` categories are those of the font-size scale, the sorted effect styles, the animation table and the text styles. |
| Generator.Categories | packages/tailwind-config/lib/index.ts:84-429 | Runs the nine builders. Every category, with every key and value it returns, is the one its builder's specification gives. |
| Generator.ExpectedKinds | packages/tailwind-config/lib/index.ts:83-430 | The specified categories return exactly the keys `buildConfig` groups them by. |
| Generator.Generate | packages/tailwind-config/lib/index.ts:83-430 | All four exported objects exist. `themeCss` has every category but `typography` and `componentsCss` has only `typography`. `twMergeKeys` has only `shadow` and `animate`, and `docsMeta` has every category but `animate`. Entry `[K][T]` holds `v` exactly when category T's specification returns `v` under K, so every value, in every exported object, is the one its builder specifies. |
| Strings.SplitJoin | packages/tailwind-config/lib/index.ts:44 | Splitting a join at its separator gives back the parts when none contains the separator. |
| Strings.JoinSplit | packages/tailwind-config/lib/index.ts:316 | Joining the parts of a split gives back the string, and no part contains the separator. |
| FromFigma.CollapseFirst | packages/tailwind-config/scripts/from-figma.ts:49 | The result is empty only for an empty name. It starts with a space only if the name does, and with `/` only when the name's first non-space character is `/`. |
| FromFigma.CollapseLeavesNoSpaceNextToSlash | packages/tailwind-config/scripts/from-figma.ts:49-70 | After the replacement, no space stands directly before or after a `/`. |
| FromFigma.CollapseRemovesOnlySpaces | packages/tailwind-config/scripts/from-figma.ts:49-70 | Only spaces are removed: the name without spaces is unchanged. |
| FromFigma.CollapseKeepsCleanName | packages/tailwind-config/scripts/from-figma.ts:49-70 | A name with no space next to a slash is left unchanged. |
| FromFigma.CollapseIdempotent | packages/tailwind-config/scripts/from-figma.ts:49-70 | Normalising twice is the same as normalising once. |
| FromFigma.ScanHeld | packages/tailwind-config/scripts/from-figma.ts:49 | Run on held spaces followed by a name, the one-pass scanner agrees with the replacement. |
| FromFigma.ScanAfterSlash | packages/tailwind-config/scripts/from-figma.ts:49 | Right after a `/`, the scanner agrees with the replacement applied to the name without its leading spaces. |
| FromFigma.CollapseIsScan | packages/tailwind-config/scripts/from-figma.ts:49 | The replacement equals a one-pass scanner: it holds spaces back, drops them when a `/` follows or precedes them, and emits them before any other character or at the end. This pins the result down on every name. |
| FromFigma.CollapseKeepsSpaces | packages/tailwind-config/scripts/from-figma.ts:49 | Spaces followed by a character other than space and `/`, or by the end, are kept. |
| FromFigma.CollapseDropsSpaces | packages/tailwind-config/scripts/from-figma.ts:49 | Spaces before a `/` are dropped together with the spaces after it. |
| FromFigma.CollapseExample | packages/tailwind-config/scripts/from-figma.ts:49 | `A / B` becomes `A/B`. |
| FromFigma.Record | packages/tailwind-config/scripts/from-figma.ts:47-71 | A record's `type` is its style's `style_type`, and its name is the normalised style name. A text record carries the node's font weight, size, line height and letter spacing; an effect record the node's effects; a fill record the node's fills. |
| FromFigma.Records | packages/tailwind-config/scripts/from-figma.ts:38-79 | There are never more records than styles. |
| FromFigma.RecordsStep | packages/tailwind-config/scripts/from-figma.ts:41-77 | Each iteration appends the record of the current style when that style emits one. |
| FromFigma.NormaliseStyle | packages/tailwind-config/scripts/from-figma.ts:42-76 | A TEXT or EFFECT style fails exactly when its node is missing, a FILL style fails when its node is missing or has no paints, and any other type never fails. Otherwise a TEXT or EFFECT style gives one record and a FILL style gives one record exactly when its first paint is `SOLID`. Any other type gives none. |
| FromFigma.FileStylesToRecords | packages/tailwind-config/scripts/from-figma.ts:34-80 | The run succeeds exactly when every style resolves, and then returns the records of the sorted styles. Otherwise it fails with the error of the first style, in sorted order, that does not resolve. |
| FromFigma.RecordAt | packages/tailwind-config/scripts/from-figma.ts:41-76 | Record `j` is the record of the `j`-th emitting style and its node, payload included. Its type equals that style's type and its name is that style's normalised name. |
| FromFigma.RecordNamesClean | packages/tailwind-config/scripts/from-figma.ts:49-70 | No record name has a space next to a slash. |
| FromFigma.FillRecordsSolid | packages/tailwind-config/scripts/from-figma.ts:65-74 | Every fill record has a first paint, and it is solid, so the generator can read `fills[0]`. |
| FromFigma.RecordsInSortOrder | packages/tailwind-config/scripts/from-figma.ts:41 | The styles behind the records are in ascending `sort_position` order when the comparator is a total preorder. |
| FromFigma.RecordCounts | packages/tailwind-config/scripts/from-figma.ts:44-76 | A TEXT or EFFECT style yields exactly one record per occurrence. A FILL style yields one per occurrence when its first paint is `SOLID`, and none otherwise. Any other type yields none. |
| FromFigma.SortedResolves | packages/tailwind-config/scripts/from-figma.ts:41 | Sorting does not change whether every style resolves. |

## Left out

- Reading `styles.fill.json`, `styles.effect.json` and `styles.text.json` (packages/tailwind-config/lib/index.ts:14-16) is file I/O. The three style lists are parameters of `Generator.Generate`.
- `getFileStyles` (packages/tailwind-config/scripts/from-figma.ts:12-32) is two network requests. The style list and the node lookup are parameters of `FromFigma.FileStylesToRecords`.
- Grouping the records by type and writing them to disk (packages/tailwind-config/scripts/index.ts) is I/O.
- `kebabCase` (from es-toolkit), `comparePaths` (`./comparers.ts`) and `localeCompare` are parameters. They are not part of this model. Ordering facts assume only that the comparator is a total preorder.
- Printing a number with a template literal is a parameter `Show`. Its output is restricted to the characters a JavaScript number prints.
- Floating point: all numbers are exact reals. The exceptions are colour channels, which are modelled as bytes after `Math.round(value * 255)`. Alpha is kept as exactly-one or a rounded byte, because the source tests `a !== 1` before rounding. `letterSpacing / fontSize` is exact, not a double; a zero font size gives `Infinity` or `-Infinity`, as in JavaScript.
- Object keys are modelled as the datatypes `OutputKind` and `CategoryName`. Objects are modelled as maps, so the insertion order of `Object.entries` is not modelled. The model therefore drops the category order of each exported object, which in the source is the order in which `buildConfig` meets the categories (packages/tailwind-config/lib/index.ts:71-72); only each object's keys and values are modelled.
- `docsMeta` is modelled as the item list itself, without the `{ items }` wrapper object.
- Shadow items keep `backgroundColor` and `boxShadow` as fields of the item, not inside a nested `style` object.
- Generator.Generate: requires every fill style to have a first paint. The source throws a TypeError only when a fill style it selects or looks up has an empty `fills`; the model does not capture that error path. `FromFigma.FillRecordsSolid` shows that the normaliser never emits such a style.
- Shadows.FormatEffect / Shadows.BuildShadow: only drop and inner shadows are modelled faithfully. The model's effect record always carries an offset, so every effect is formatted as a shadow layer. For a blur effect, which has no `offset`, the destructuring in `formatEffect` (packages/tailwind-config/lib/index.ts:36-41), called at packages/tailwind-config/lib/index.ts:315, throws a TypeError; that error path is not captured. The model's `spread` is a required number; an effect whose `spread` is omitted (it defaults to 0 in the design tool's API) prints `undefinedpx` in the source, and the model cannot represent that input.
- FromFigma.FileStylesToRecords: text records carry only the four text properties the generator reads, not every property `...textNode.style` spreads.
- FromFigma.FileStylesToRecords: a node is assumed to have the shape the source's casts name (`TextNode`, `RectangleNode`).
- FromFigma.FileStylesToRecords: a `null` node entry and a missing one both read as absent, as with `?.`.
- FromFigma.FileStylesToRecords: the JavaScript TypeError is an `Err` result naming the style.
- The builders are proved against `Map`/`Filter` definitions over sequences. Pushing onto a local array is modelled by appending to a local sequence.
