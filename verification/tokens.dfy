/** The records the generator reads (the fill, effect and text style snapshots)
    and the records it produces (documentation items and per-category output). */
module Tokens {
  import opened Strings
  import opened Color

  /** What `${n}` can produce for a JavaScript number: digits, point, sign and
      exponent characters, or one of the three special values. */
  predicate IsNumberText(s: string) {
    || s == "NaN" || s == "Infinity" || s == "-Infinity"
    || (|s| > 0 && forall i :: 0 <= i < |s| ==> s[i] in "0123456789.-+e")
  }

  type Numeral = s: string | IsNumberText(s) witness "0"

  /** The rendering of numbers is a parameter: `show(n)` is `${n}`. */
  type Show = real -> Numeral

  /** The case conversion of `kebabCase` is a parameter. */
  type Kebab = string -> string

  /** `comparePaths(a, b) <= 0`, a parameter. */
  type PathOrder = (string, string) -> bool

  datatype Vector = Vector(x: real, y: real)

  /** A drop or inner shadow layer; `kind` is the design tool's effect type. */
  datatype Effect = Effect(kind: string, color: Rgba, offset: Vector, radius: real, spread: real)

  /** A paint; `kind` is its type (`SOLID`, `GRADIENT_LINEAR`, ...). */
  datatype Paint = Paint(kind: string, color: Rgba, opacity: Option<Alpha>)

  datatype FillStyle = FillStyle(name: string, fills: seq<Paint>)
  datatype EffectStyle = EffectStyle(name: string, effects: seq<Effect>)
  datatype TextStyle = TextStyle(name: string, fontWeight: real, fontSize: real, lineHeightPx: real, letterSpacing: real)

  /** The generator reads `fills[0]` of a fill style without a check. */
  predicate FillsPresent(styles: seq<FillStyle>) {
    forall s :: s in styles ==> |s.fills| > 0
  }

  /** One row of the documentation tables; each category has its own shape. */
  datatype DocsItem =
    | PrimitiveItem(figmaName: string, variableName: string, hex: string)
    | SwatchItem(figmaName: string, className: string, stylePreview: string, hex: string)
    | SizeItem(className: string, stylePreview: string)
    | ShadowItem(figmaName: string, className: string, stylePreview: string, shadowType: string,
                 level: Option<string>, backgroundColor: Option<string>, boxShadow: string)
    | NameOnlyItem(figmaName: string)
    | TypographyItem(figmaName: string, className: string, stylePreview: string)

  /** What one category builder returns; `None` is a key the builder leaves out. */
  datatype Category = Category(
    themeCss: Option<string>,
    componentsCss: Option<string>,
    twMergeKeys: Option<seq<string>>,
    docsMeta: Option<seq<DocsItem>>)

  /** A value of the configuration object, by output kind. */
  datatype ConfigValue = Css(css: string) | Keys(keys: seq<string>) | Docs(items: seq<DocsItem>)
}
