/** The exported configuration: every category builder is run once and the
    category-keyed results are transposed into the four exported objects
    `themeCss`, `componentsCss`, `twMergeKeys` and `docsMeta`. */
module Generator {
  import opened Strings
  import opened Sorting
  import opened Tokens
  import opened Seqs
  import opened Config
  import opened Colors
  import opened Text
  import opened Shadows
  import opened Animate
  import opened Typography

  /** The four exported objects, i.e. the keys of a category's result. */
  datatype OutputKind = ThemeCss | ComponentsCss | TwMergeKeys | DocsMeta

  /** The keys of the object passed to `buildConfig`. */
  datatype CategoryName =
    | ColorCategory | BorderColorCategory | DivideColorCategory | BackgroundColorCategory | TextColorCategory
    | TextCategory | ShadowCategory | AnimateCategory | TypographyCategory

  /** The output kinds a category returns, each with its value. */
  function Entries(c: Category): (m: map<OutputKind, ConfigValue>)
    ensures ThemeCss in m <==> c.themeCss.Some?
    ensures ComponentsCss in m <==> c.componentsCss.Some?
    ensures TwMergeKeys in m <==> c.twMergeKeys.Some?
    ensures DocsMeta in m <==> c.docsMeta.Some?
    ensures c.themeCss.Some? ==> m[ThemeCss] == Css(c.themeCss.value)
    ensures c.componentsCss.Some? ==> m[ComponentsCss] == Css(c.componentsCss.value)
    ensures c.twMergeKeys.Some? ==> m[TwMergeKeys] == Keys(c.twMergeKeys.value)
    ensures c.docsMeta.Some? ==> m[DocsMeta] == Docs(c.docsMeta.value)
  {
    var none: map<OutputKind, ConfigValue> := map[];
    var withTheme := if c.themeCss.Some? then none[ThemeCss := Css(c.themeCss.value)] else none;
    var withComponents :=
      if c.componentsCss.Some? then withTheme[ComponentsCss := Css(c.componentsCss.value)] else withTheme;
    var withKeys :=
      if c.twMergeKeys.Some? then withComponents[TwMergeKeys := Keys(c.twMergeKeys.value)] else withComponents;
    if c.docsMeta.Some? then withKeys[DocsMeta := Docs(c.docsMeta.value)] else withKeys
  }

  /** The module's exported bindings: every category builder, then
      `buildConfig`. Entry `config[k][t]` is the value category `t` returns for
      output kind `k`, as `Expected` gives it from the builders'
      specifications, and there are no other entries. */
  method Generate(fillStyles: seq<FillStyle>, effectStyles: seq<EffectStyle>, textStyles: seq<TextStyle>,
                  kebab: Kebab, show: Show, comparePaths: PathOrder)
    returns (config: map<OutputKind, map<CategoryName, ConfigValue>>)
    requires FillsPresent(fillStyles)
    ensures forall k :: k in config
    ensures forall t :: t in config[ThemeCss] <==> t != TypographyCategory
    ensures forall t :: t in config[ComponentsCss] <==> t == TypographyCategory
    ensures forall t :: t in config[TwMergeKeys] <==> t == ShadowCategory || t == AnimateCategory
    ensures forall t :: t in config[DocsMeta] <==> t != AnimateCategory
    ensures forall t, k, v :: At(config, k, t, v)
                         <==> At(Expected(fillStyles, effectStyles, textStyles, kebab, show, comparePaths), t, k, v)
    ensures config == Transpose(Expected(fillStyles, effectStyles, textStyles, kebab, show, comparePaths))
  {
    var input := Categories(fillStyles, effectStyles, textStyles, kebab, show, comparePaths);
    ExpectedKinds(fillStyles, effectStyles, textStyles, kebab, show, comparePaths);
    config := BuildConfig(input);
    ExportedKinds(input, config);
    TransposeAt(input, config);
  }

  /** The object passed to `buildConfig`, built by running every category builder. */
  method Categories(fillStyles: seq<FillStyle>, effectStyles: seq<EffectStyle>, textStyles: seq<TextStyle>,
                    kebab: Kebab, show: Show, comparePaths: PathOrder)
    returns (input: map<CategoryName, map<OutputKind, ConfigValue>>)
    requires FillsPresent(fillStyles)
    ensures input == Expected(fillStyles, effectStyles, textStyles, kebab, show, comparePaths)
  {
    var color, borderColor, divideColor, backgroundColor, textColor := ColorCategories(fillStyles, kebab, comparePaths);
    var text, shadow, animate, typography := OtherCategories(fillStyles, effectStyles, textStyles, kebab, show, comparePaths);
    input := Input(color, borderColor, divideColor, backgroundColor, textColor, text, shadow, animate, typography);
  }

  /** The five colour builders. */
  method ColorCategories(fillStyles: seq<FillStyle>, kebab: Kebab, comparePaths: PathOrder)
    returns (color: Category, borderColor: Category, divideColor: Category, backgroundColor: Category,
             textColor: Category)
    requires FillsPresent(fillStyles)
    ensures color == ExpectedColor(fillStyles, kebab, comparePaths)
    ensures borderColor == ExpectedSemantic(BorderColorRule, fillStyles, kebab)
    ensures divideColor == ExpectedSemantic(DivideColorRule, fillStyles, kebab)
    ensures backgroundColor == ExpectedSemantic(BackgroundColorRule, fillStyles, kebab)
    ensures textColor == ExpectedSemantic(TextColorRule, fillStyles, kebab)
  {
    color := BuildColor(fillStyles, kebab, comparePaths);
    borderColor := BuildSemanticColor(BorderColorRule, fillStyles, kebab);
    divideColor := BuildSemanticColor(DivideColorRule, fillStyles, kebab);
    backgroundColor := BuildSemanticColor(BackgroundColorRule, fillStyles, kebab);
    textColor := BuildSemanticColor(TextColorRule, fillStyles, kebab);
  }

  /** The builders of `text`, `shadow`, `animate` and `typography`. */
  method OtherCategories(fillStyles: seq<FillStyle>, effectStyles: seq<EffectStyle>, textStyles: seq<TextStyle>,
                         kebab: Kebab, show: Show, comparePaths: PathOrder)
    returns (text: Category, shadow: Category, animate: Category, typography: Category)
    requires FillsPresent(fillStyles)
    ensures text == ExpectedText(show)
    ensures shadow == ExpectedShadow(effectStyles, fillStyles, kebab, show, comparePaths)
    ensures animate == ExpectedAnimate()
    ensures typography == ExpectedTypography(textStyles, kebab, show)
  {
    text := BuildText(show);
    shadow := BuildShadow(effectStyles, fillStyles, kebab, show, comparePaths);
    animate := BuildAnimate();
    typography := BuildTypography(textStyles, kebab, show);
  }

  // ----- what each builder returns, by its specification -----

  /** `color`: the primitive colour declarations and documentation items. */
  function ExpectedColor(fillStyles: seq<FillStyle>, kebab: Kebab, comparePaths: PathOrder): Category
    requires FillsPresent(fillStyles)
  {
    PrimitiveStylesFills(fillStyles, comparePaths);
    var styles := PrimitiveStyles(fillStyles, comparePaths);
    Category(Some(Join(Map(PrimitiveDeclFor(kebab), styles), "\n")), None, None,
             Some(Map(PrimitiveItemFor(kebab), styles)))
  }

  /** `borderColor`, `divideColor`, `backgroundColor` or `textColor`, by its rule. */
  function ExpectedSemantic(rule: SemanticRule, fillStyles: seq<FillStyle>, kebab: Kebab): Category
    requires FillsPresent(fillStyles)
  {
    WithPrefixFills(fillStyles, rule.selectPrefix);
    var styles := Filter(HasPrefix(rule.selectPrefix), fillStyles);
    Category(Some(Join(Map(SemanticDeclFor(rule, kebab), styles), "\n")), None, None,
             Some(Map(SemanticItemFor(rule, kebab), styles)))
  }

  /** `text`: the font-size scale. */
  function ExpectedText(show: Show): Category
  {
    Category(Some(Join(SizeDecls(FontSizeScale, show), "\n")), None, None,
             Some(Map(SizeItemFor(show), FontSizeScale)))
  }

  /** `shadow`: the effect styles in `comparePaths` order. */
  function ExpectedShadow(effectStyles: seq<EffectStyle>, fillStyles: seq<FillStyle>, kebab: Kebab, show: Show,
                          comparePaths: PathOrder): Category
    requires FillsPresent(fillStyles)
  {
    var styles := SortBy(effectStyles, EffectName, comparePaths);
    Category(Some(Join(Map(DeclFor(kebab, show), styles), "\n")), None, Some(Map(KeyFor(kebab), styles)),
             Some(Map(Shadows.ItemFor(fillStyles, kebab, show), styles)))
  }

  /** `animate`: the animation table, without documentation. */
  function ExpectedAnimate(): Category
  {
    Category(Some(Join(Map(AnimateDecl, Animations), "\n")), None, Some(Map(AnimationName, Animations)), None)
  }

  /** `typography`: component blocks and documentation items of the text styles. */
  function ExpectedTypography(textStyles: seq<TextStyle>, kebab: Kebab, show: Show): Category
  {
    Category(None, Some(Join(Map(BlockFor(kebab, show), Filter(HasComponent, textStyles)), "\n\n")), None,
             Some(Map(Typography.ItemFor(kebab, show), textStyles)))
  }

  /** The object passed to `buildConfig`, as the builders' specifications give it. */
  function Expected(fillStyles: seq<FillStyle>, effectStyles: seq<EffectStyle>, textStyles: seq<TextStyle>,
                    kebab: Kebab, show: Show, comparePaths: PathOrder): map<CategoryName, map<OutputKind, ConfigValue>>
    requires FillsPresent(fillStyles)
  {
    Input(ExpectedColor(fillStyles, kebab, comparePaths),
          ExpectedSemantic(BorderColorRule, fillStyles, kebab),
          ExpectedSemantic(DivideColorRule, fillStyles, kebab),
          ExpectedSemantic(BackgroundColorRule, fillStyles, kebab),
          ExpectedSemantic(TextColorRule, fillStyles, kebab),
          ExpectedText(show),
          ExpectedShadow(effectStyles, fillStyles, kebab, show, comparePaths),
          ExpectedAnimate(),
          ExpectedTypography(textStyles, kebab, show))
  }

  /** The object passed to `buildConfig`. */
  function Input(color: Category, borderColor: Category, divideColor: Category, backgroundColor: Category,
                 textColor: Category, text: Category, shadow: Category, animate: Category, typography: Category)
    : map<CategoryName, map<OutputKind, ConfigValue>>
  {
    map[
      ColorCategory := Entries(color),
      BorderColorCategory := Entries(borderColor),
      DivideColorCategory := Entries(divideColor),
      BackgroundColorCategory := Entries(backgroundColor),
      TextColorCategory := Entries(textColor),
      TextCategory := Entries(text),
      ShadowCategory := Entries(shadow),
      AnimateCategory := Entries(animate),
      TypographyCategory := Entries(typography)]
  }

  /** Which of the four output kinds a category returns. */
  predicate Returns(c: Category, themeCss: bool, componentsCss: bool, twMergeKeys: bool, docsMeta: bool)
  {
    c.themeCss.Some? == themeCss && c.componentsCss.Some? == componentsCss
    && c.twMergeKeys.Some? == twMergeKeys && c.docsMeta.Some? == docsMeta
  }

  /** Which categories land in which exported object follows from which output
      kinds each category returns. */
  lemma ExportedKinds<V>(input: map<CategoryName, map<OutputKind, V>>, config: map<OutputKind, map<CategoryName, V>>)
    requires forall t :: t in input
    requires forall t :: ThemeCss in input[t] <==> t != TypographyCategory
    requires forall t :: ComponentsCss in input[t] <==> t == TypographyCategory
    requires forall t :: TwMergeKeys in input[t] <==> t == ShadowCategory || t == AnimateCategory
    requires forall t :: DocsMeta in input[t] <==> t != AnimateCategory
    requires IsTransposeOf(config, input)
    ensures forall k :: k in config
    ensures forall t :: t in config[ThemeCss] <==> t != TypographyCategory
    ensures forall t :: t in config[ComponentsCss] <==> t == TypographyCategory
    ensures forall t :: t in config[TwMergeKeys] <==> t == ShadowCategory || t == AnimateCategory
    ensures forall t :: t in config[DocsMeta] <==> t != AnimateCategory
  {
    CssRows(input, config);
    OtherRows(input, config);
    KindsCovered(config);
  }

  lemma CssRows<V>(input: map<CategoryName, map<OutputKind, V>>, config: map<OutputKind, map<CategoryName, V>>)
    requires forall t :: t in input
    requires forall t :: ThemeCss in input[t] <==> t != TypographyCategory
    requires forall t :: ComponentsCss in input[t] <==> t == TypographyCategory
    requires IsTransposeOf(config, input)
    ensures ThemeCss in config && forall t :: t in config[ThemeCss] <==> t != TypographyCategory
    ensures ComponentsCss in config && forall t :: t in config[ComponentsCss] <==> t == TypographyCategory
  {
    Row(input, config, ThemeCss, t => t != TypographyCategory, ColorCategory);
    Row(input, config, ComponentsCss, t => t == TypographyCategory, TypographyCategory);
  }

  lemma OtherRows<V>(input: map<CategoryName, map<OutputKind, V>>, config: map<OutputKind, map<CategoryName, V>>)
    requires forall t :: t in input
    requires forall t :: TwMergeKeys in input[t] <==> t == ShadowCategory || t == AnimateCategory
    requires forall t :: DocsMeta in input[t] <==> t != AnimateCategory
    requires IsTransposeOf(config, input)
    ensures TwMergeKeys in config && forall t :: t in config[TwMergeKeys] <==> t == ShadowCategory || t == AnimateCategory
    ensures DocsMeta in config && forall t :: t in config[DocsMeta] <==> t != AnimateCategory
  {
    Row(input, config, TwMergeKeys, t => t == ShadowCategory || t == AnimateCategory, ShadowCategory);
    Row(input, config, DocsMeta, t => t != AnimateCategory, ColorCategory);
  }

  /** Every output kind has a row once each has one category. */
  lemma KindsCovered<V>(config: map<OutputKind, V>)
    requires ThemeCss in config && ComponentsCss in config && TwMergeKeys in config && DocsMeta in config
    ensures forall k :: k in config
  {
    forall k ensures k in config {
      match k
      case ThemeCss =>
      case ComponentsCss =>
      case TwMergeKeys =>
      case DocsMeta =>
    }
  }

  /** In the transpose, the row of output kind `k` holds exactly the categories
      that return `k`. */
  lemma Row<K, C, V>(input: map<K, map<C, V>>, config: map<C, map<K, V>>, k: C, has: K -> bool, w: K)
    requires forall t :: t in input
    requires forall t :: k in input[t] <==> has(t)
    requires has(w)
    requires IsTransposeOf(config, input)
    ensures k in config
    ensures forall t :: t in config[k] <==> has(t)
  {
    assert k in input[w];
  }

  /** Which output kinds each category of `Expected` returns. */
  lemma ExpectedKinds(fillStyles: seq<FillStyle>, effectStyles: seq<EffectStyle>, textStyles: seq<TextStyle>,
                      kebab: Kebab, show: Show, comparePaths: PathOrder)
    requires FillsPresent(fillStyles)
    ensures var input := Expected(fillStyles, effectStyles, textStyles, kebab, show, comparePaths);
      && (forall t :: t in input)
      && (forall t :: ThemeCss in input[t] <==> t != TypographyCategory)
      && (forall t :: ComponentsCss in input[t] <==> t == TypographyCategory)
      && (forall t :: TwMergeKeys in input[t] <==> t == ShadowCategory || t == AnimateCategory)
      && (forall t :: DocsMeta in input[t] <==> t != AnimateCategory)
  {
    InputKinds(ExpectedColor(fillStyles, kebab, comparePaths),
               ExpectedSemantic(BorderColorRule, fillStyles, kebab),
               ExpectedSemantic(DivideColorRule, fillStyles, kebab),
               ExpectedSemantic(BackgroundColorRule, fillStyles, kebab),
               ExpectedSemantic(TextColorRule, fillStyles, kebab),
               ExpectedText(show),
               ExpectedShadow(effectStyles, fillStyles, kebab, show, comparePaths),
               ExpectedAnimate(),
               ExpectedTypography(textStyles, kebab, show));
  }

  /** The output kinds of each entry of the object passed to `buildConfig`. */
  lemma InputKinds(color: Category, borderColor: Category, divideColor: Category, backgroundColor: Category,
                   textColor: Category, text: Category, shadow: Category, animate: Category, typography: Category)
    requires Returns(color, true, false, false, true) && Returns(borderColor, true, false, false, true)
    requires Returns(divideColor, true, false, false, true) && Returns(backgroundColor, true, false, false, true)
    requires Returns(textColor, true, false, false, true) && Returns(text, true, false, false, true)
    requires Returns(shadow, true, false, true, true) && Returns(animate, true, false, true, false)
    requires Returns(typography, false, true, false, true)
    ensures var input := Input(color, borderColor, divideColor, backgroundColor, textColor, text, shadow, animate, typography);
      && (forall t :: t in input)
      && (forall t :: ThemeCss in input[t] <==> t != TypographyCategory)
      && (forall t :: ComponentsCss in input[t] <==> t == TypographyCategory)
      && (forall t :: TwMergeKeys in input[t] <==> t == ShadowCategory || t == AnimateCategory)
      && (forall t :: DocsMeta in input[t] <==> t != AnimateCategory)
  {
    var input := Input(color, borderColor, divideColor, backgroundColor, textColor, text, shadow, animate, typography);
    forall t
      ensures t in input
      ensures ThemeCss in input[t] <==> t != TypographyCategory
      ensures ComponentsCss in input[t] <==> t == TypographyCategory
      ensures TwMergeKeys in input[t] <==> t == ShadowCategory || t == AnimateCategory
      ensures DocsMeta in input[t] <==> t != AnimateCategory
    {
      match t
      case ColorCategory =>
      case BorderColorCategory =>
      case DivideColorCategory =>
      case BackgroundColorCategory =>
      case TextColorCategory =>
      case TextCategory =>
      case ShadowCategory =>
      case AnimateCategory =>
      case TypographyCategory =>
    }
  }

}
