/** The colour categories of the generator: `color` (primitive colours) and the
    four semantic ones, `borderColor`, `divideColor`, `backgroundColor` and
    `textColor`. */
module Colors {
  import opened Strings
  import opened Sorting
  import opened Color
  import opened Tokens
  import opened Seqs

  function NameOf(s: FillStyle): string { s.name }

  /** The test of `styles.filter(({ name }) => name.startsWith(prefix))`. */
  function HasPrefix(prefix: string): FillStyle -> bool
  {
    (s: FillStyle) => StartsWith(s.name, prefix)
  }

  /** The filter keeps exactly the styles with the prefix, each as often as in the input. */
  lemma WithPrefixSelects(styles: seq<FillStyle>, prefix: string)
    ensures forall s :: multiset(Filter(HasPrefix(prefix), styles))[s]
                     == (if StartsWith(s.name, prefix) then multiset(styles)[s] else 0)
  {
    FilterSelects(HasPrefix(prefix), styles);
  }

  /** Hence the filter keeps the fills of its input. */
  lemma WithPrefixFills(styles: seq<FillStyle>, prefix: string)
    requires FillsPresent(styles)
    ensures FillsPresent(Filter(HasPrefix(prefix), styles))
  {
    WithPrefixSelects(styles, prefix);
    forall s | s in Filter(HasPrefix(prefix), styles) ensures |s.fills| > 0 {
      assert multiset(Filter(HasPrefix(prefix), styles))[s] > 0;
      assert s in multiset(styles);
    }
  }

  /** `{ ...fill.color, a: 'opacity' in fill ? fill.opacity : fill.color.a }` */
  function EffectiveColor(fill: Paint): Rgba
  {
    Rgba(fill.color.r, fill.color.g, fill.color.b, if fill.opacity.Some? then fill.opacity.value else fill.color.a)
  }

  /** The hex value of a fill style: its first paint, alpha from the paint's opacity when it has one. */
  function FillHex(s: FillStyle): string
    requires |s.fills| > 0
  {
    RgbToHex(EffectiveColor(s.fills[0]))
  }

  /** The hex value decodes to the first paint's channels, with the paint's
      opacity as alpha when present and the colour's own alpha otherwise; the
      alpha pair is written exactly when that alpha is not 1. */
  lemma FillHexAlpha(s: FillStyle)
    requires |s.fills| > 0
    ensures var f := s.fills[0];
      var alpha := if f.opacity.Some? then f.opacity.value else f.color.a;
      && ParseHex(FillHex(s)) == Some(Rgba(f.color.r, f.color.g, f.color.b, alpha))
      && (|FillHex(s)| == 7 <==> alpha == Opaque)
  {
    HexRoundTrip(EffectiveColor(s.fills[0]));
  }

  // ----- primitive colours -----

  /** The primitive fill styles in `comparePaths` order. */
  function PrimitiveStyles(fillStyles: seq<FillStyle>, comparePaths: PathOrder): (r: seq<FillStyle>)
    ensures |r| <= |fillStyles|
  {
    SortBy(Filter(HasPrefix("Primitive/"), fillStyles), NameOf, comparePaths)
  }

  lemma PrimitiveStylesFills(fillStyles: seq<FillStyle>, comparePaths: PathOrder)
    requires FillsPresent(fillStyles)
    ensures FillsPresent(PrimitiveStyles(fillStyles, comparePaths))
  {
    var selected := Filter(HasPrefix("Primitive/"), fillStyles);
    WithPrefixFills(fillStyles, "Primitive/");
    forall s | s in PrimitiveStyles(fillStyles, comparePaths) ensures |s.fills| > 0 {
      assert s in multiset(selected);
    }
  }

  function PrimitiveDecl(s: FillStyle, kebab: Kebab): string
    requires |s.fills| > 0
  {
    "--color-" + kebab(s.name) + ": " + FillHex(s) + ";"
  }

  function PrimitiveDocsItem(s: FillStyle, kebab: Kebab): DocsItem
    requires |s.fills| > 0
  {
    PrimitiveItem(s.name, PrimitiveDecl(s, kebab), FillHex(s))
  }

  function PrimitiveDeclFor(kebab: Kebab): FillStyle --> string
  {
    (s: FillStyle) requires |s.fills| > 0 => PrimitiveDecl(s, kebab)
  }

  function PrimitiveItemFor(kebab: Kebab): FillStyle --> DocsItem
  {
    (s: FillStyle) requires |s.fills| > 0 => PrimitiveDocsItem(s, kebab)
  }

  /** The loop of the `color` builder over the selected, sorted styles: one
      custom property and one documentation item per style, in order. */
  method EmitPrimitives(styles: seq<FillStyle>, kebab: Kebab) returns (themeDecls: seq<string>, docsItems: seq<DocsItem>)
    requires FillsPresent(styles)
    ensures themeDecls == Map(PrimitiveDeclFor(kebab), styles)
    ensures docsItems == Map(PrimitiveItemFor(kebab), styles)
  {
    themeDecls := [];
    docsItems := [];
    for i := 0 to |styles|
      invariant themeDecls == Map(PrimitiveDeclFor(kebab), styles[..i])
      invariant docsItems == Map(PrimitiveItemFor(kebab), styles[..i])
    {
      var style := styles[i];
      var themeKey := "--color-" + kebab(style.name);
      var fill := style.fills[0];
      var value := RgbToHex(EffectiveColor(fill));
      var decl := themeKey + ": " + value + ";";
      var item := PrimitiveItem(style.name, decl, value);
      MapPush(PrimitiveDeclFor(kebab), styles, i, themeDecls, decl);
      MapPush(PrimitiveItemFor(kebab), styles, i, docsItems, item);
      themeDecls := themeDecls + [decl];
      docsItems := docsItems + [item];
    }
    assert styles[..|styles|] == styles;
  }

  /** The `color` category: one declaration and one documentation item per
      primitive fill style, in the order of `PrimitiveStyles`. */
  method BuildColor(fillStyles: seq<FillStyle>, kebab: Kebab, comparePaths: PathOrder) returns (out: Category)
    requires FillsPresent(fillStyles)
    ensures FillsPresent(PrimitiveStyles(fillStyles, comparePaths))
    ensures var styles := PrimitiveStyles(fillStyles, comparePaths);
      && out.themeCss == Some(Join(Map(PrimitiveDeclFor(kebab), styles), "\n"))
      && out.docsMeta == Some(Map(PrimitiveItemFor(kebab), styles))
      && out.componentsCss.None? && out.twMergeKeys.None?
  {
    var styles := PrimitiveStyles(fillStyles, comparePaths);
    PrimitiveStylesFills(fillStyles, comparePaths);
    var themeDecls, docsItems := EmitPrimitives(styles, kebab);
    out := Category(Some(Join(themeDecls, "\n")), None, None, Some(docsItems));
  }

  /** The `color` category covers exactly the fill styles named `Primitive/...`,
      each as often as in the input, in `comparePaths` order. */
  lemma PrimitiveSelection(fillStyles: seq<FillStyle>, comparePaths: PathOrder)
    ensures var styles := PrimitiveStyles(fillStyles, comparePaths);
      && (forall s :: multiset(styles)[s] == (if StartsWith(s.name, "Primitive/") then multiset(fillStyles)[s] else 0))
      && (TotalPreorder(comparePaths) ==> SortedBy(styles, NameOf, comparePaths))
  {
    WithPrefixSelects(fillStyles, "Primitive/");
    if TotalPreorder(comparePaths) {
      SortBySorted(Filter(HasPrefix("Primitive/"), fillStyles), NameOf, comparePaths);
    }
  }

  /** A custom property declaration `key: value;` read back: the property name
      and the colour written as its value. */
  function ReadDecl(decl: string, key: string): Option<Rgba>
  {
    if StartsWith(decl, key + ": ") && EndsWith(decl, ";") && |key| + 3 <= |decl|
    then ParseHex(decl[|key| + 2..|decl| - 1])
    else None
  }

  lemma ReadDeclOf(key: string, c: Rgba)
    ensures ReadDecl(key + ": " + RgbToHex(c) + ";", key) == Some(c)
  {
    var d := key + ": " + RgbToHex(c) + ";";
    assert d == (key + ": ") + (RgbToHex(c) + ";");
    assert d[|key| + 2..|d| - 1] == RgbToHex(c);
    HexRoundTrip(c);
  }

  /** The declaration of a primitive colour names `--color-` followed by the
      converted style name, and its value reads back as the first paint's colour
      with the paint's opacity as alpha. The documentation item repeats it. */
  lemma PrimitiveEntry(s: FillStyle, kebab: Kebab)
    requires |s.fills| > 0
    ensures ReadDecl(PrimitiveDecl(s, kebab), "--color-" + kebab(s.name)) == Some(EffectiveColor(s.fills[0]))
  {
    ReadDeclOf("--color-" + kebab(s.name), EffectiveColor(s.fills[0]));
  }

  /** Declaration `i` and documentation item `i` of the `color` category
      describe style `i`: the declaration names `--color-` and the converted
      name and reads back as the style's colour; the item repeats the name,
      the declaration and the hex value. */
  lemma {:induction false} PrimitiveLayout(styles: seq<FillStyle>, kebab: Kebab, i: nat)
    requires FillsPresent(styles) && i < |styles|
    ensures var s, decl := styles[i], Map(PrimitiveDeclFor(kebab), styles)[i];
      && ReadDecl(decl, "--color-" + kebab(s.name)) == Some(EffectiveColor(s.fills[0]))
      && Map(PrimitiveItemFor(kebab), styles)[i] == PrimitiveItem(s.name, decl, FillHex(s))
  {
    MapAt(PrimitiveDeclFor(kebab), styles, i);
    MapAt(PrimitiveItemFor(kebab), styles, i);
    PrimitiveEntry(styles[i], kebab);
  }

  // ----- semantic colours -----

  /** What distinguishes the four semantic colour categories. The styles are
      selected by `selectPrefix`; `stripPrefix` is removed from the name (border
      and divide colours strip `Semantic/Border` without its trailing slash);
      the preview wraps the theme key between `previewOpen` and `previewClose`;
      only background colours collapse `Action/.../Default`. */
  datatype SemanticRule = SemanticRule(
    selectPrefix: string,
    stripPrefix: string,
    keyPrefix: string,
    classPrefix: string,
    previewOpen: string,
    previewClose: string,
    collapseActionDefault: bool)

  const BorderColorRule := SemanticRule(
    "Semantic/Border/", "Semantic/Border", "--border-color-", "border-",
    "border-color: var(", ");", false)

  const DivideColorRule := SemanticRule(
    "Semantic/Border/", "Semantic/Border", "--divide-color-", "divide-",
    "& > :not(:last-child) {\n  border-color: var(", ");\n}", false)

  const BackgroundColorRule := SemanticRule(
    "Semantic/Bg/", "Semantic/Bg/", "--background-color-", "bg-",
    "background-color: var(", ");", true)

  const TextColorRule := SemanticRule(
    "Semantic/Text/", "Semantic/Text/", "--text-color-", "text-",
    "color: var(", ");", false)

  /** `unprefixedName` */
  function SemanticName(rule: SemanticRule, name: string): string
  {
    var u := StripPrefix(name, rule.stripPrefix);
    if rule.collapseActionDefault && StartsWith(u, "Action/") && EndsWith(u, "/Default")
    then StripSuffix(u, "/Default")
    else u
  }

  function SemanticKey(rule: SemanticRule, s: FillStyle, kebab: Kebab): string
  {
    rule.keyPrefix + kebab(SemanticName(rule, s.name))
  }

  function SemanticDecl(rule: SemanticRule, s: FillStyle, kebab: Kebab): string
    requires |s.fills| > 0
  {
    SemanticKey(rule, s, kebab) + ": " + FillHex(s) + ";"
  }

  function SemanticItem(rule: SemanticRule, s: FillStyle, kebab: Kebab): DocsItem
    requires |s.fills| > 0
  {
    SwatchItem(s.name, rule.classPrefix + kebab(SemanticName(rule, s.name)),
      rule.previewOpen + SemanticKey(rule, s, kebab) + rule.previewClose, FillHex(s))
  }

  function SemanticDeclFor(rule: SemanticRule, kebab: Kebab): FillStyle --> string
  {
    (s: FillStyle) requires |s.fills| > 0 => SemanticDecl(rule, s, kebab)
  }

  function SemanticItemFor(rule: SemanticRule, kebab: Kebab): FillStyle --> DocsItem
  {
    (s: FillStyle) requires |s.fills| > 0 => SemanticItem(rule, s, kebab)
  }

  /** The body of a semantic colour builder's loop for one style. */
  method DescribeSemantic(rule: SemanticRule, style: FillStyle, kebab: Kebab) returns (decl: string, item: DocsItem)
    requires |style.fills| > 0
    ensures decl == SemanticDecl(rule, style, kebab)
    ensures item == SemanticItem(rule, style, kebab)
  {
    var unprefixedName := StripPrefix(style.name, rule.stripPrefix);
    if rule.collapseActionDefault && StartsWith(unprefixedName, "Action/") && EndsWith(unprefixedName, "/Default") {
      unprefixedName := StripSuffix(unprefixedName, "/Default");
    }
    var themeKey := rule.keyPrefix + kebab(unprefixedName);
    var fill := style.fills[0];
    var value := RgbToHex(EffectiveColor(fill));
    decl := themeKey + ": " + value + ";";
    item := SwatchItem(style.name, rule.classPrefix + kebab(unprefixedName),
                       rule.previewOpen + themeKey + rule.previewClose, value);
  }

  /** The loop of a semantic colour builder over the selected styles. */
  method EmitSemantic(rule: SemanticRule, styles: seq<FillStyle>, kebab: Kebab)
    returns (themeDecls: seq<string>, docsItems: seq<DocsItem>)
    requires FillsPresent(styles)
    ensures themeDecls == Map(SemanticDeclFor(rule, kebab), styles)
    ensures docsItems == Map(SemanticItemFor(rule, kebab), styles)
  {
    themeDecls := [];
    docsItems := [];
    for i := 0 to |styles|
      invariant themeDecls == Map(SemanticDeclFor(rule, kebab), styles[..i])
      invariant docsItems == Map(SemanticItemFor(rule, kebab), styles[..i])
    {
      var decl, item := DescribeSemantic(rule, styles[i], kebab);
      MapPush(SemanticDeclFor(rule, kebab), styles, i, themeDecls, decl);
      MapPush(SemanticItemFor(rule, kebab), styles, i, docsItems, item);
      themeDecls := themeDecls + [decl];
      docsItems := docsItems + [item];
    }
    assert styles[..|styles|] == styles;
  }

  /** One semantic colour category: one declaration and one documentation item
      per selected fill style, in input order. */
  method BuildSemanticColor(rule: SemanticRule, fillStyles: seq<FillStyle>, kebab: Kebab) returns (out: Category)
    requires FillsPresent(fillStyles)
    ensures FillsPresent(Filter(HasPrefix(rule.selectPrefix), fillStyles))
    ensures var styles := Filter(HasPrefix(rule.selectPrefix), fillStyles);
      && out.themeCss == Some(Join(Map(SemanticDeclFor(rule, kebab), styles), "\n"))
      && out.docsMeta == Some(Map(SemanticItemFor(rule, kebab), styles))
      && out.componentsCss.None? && out.twMergeKeys.None?
  {
    var styles := Filter(HasPrefix(rule.selectPrefix), fillStyles);
    WithPrefixFills(fillStyles, rule.selectPrefix);
    var themeDecls, docsItems := EmitSemantic(rule, styles, kebab);
    out := Category(Some(Join(themeDecls, "\n")), None, None, Some(docsItems));
  }

  /** The declaration of a semantic colour names the rule's property prefix
      followed by the converted unprefixed name, and its value reads back as the
      first paint's colour with the paint's opacity as alpha. */
  lemma SemanticEntry(rule: SemanticRule, s: FillStyle, kebab: Kebab)
    requires |s.fills| > 0
    ensures ReadDecl(SemanticDecl(rule, s, kebab), rule.keyPrefix + kebab(SemanticName(rule, s.name)))
      == Some(EffectiveColor(s.fills[0]))
  {
    ReadDeclOf(rule.keyPrefix + kebab(SemanticName(rule, s.name)), EffectiveColor(s.fills[0]));
  }

  /** Declaration `i` and documentation item `i` of a semantic colour
      category describe selected style `i`: the declaration names the rule's
      key for the style and reads back as its colour; the item carries the
      rule's class, the preview around that key and the hex value. */
  lemma {:induction false} SemanticLayout(rule: SemanticRule, styles: seq<FillStyle>, kebab: Kebab, i: nat)
    requires FillsPresent(styles) && i < |styles|
    ensures var s, decl := styles[i], Map(SemanticDeclFor(rule, kebab), styles)[i];
      && decl == SemanticDecl(rule, s, kebab)
      && ReadDecl(decl, SemanticKey(rule, s, kebab)) == Some(EffectiveColor(s.fills[0]))
      && Map(SemanticItemFor(rule, kebab), styles)[i] == SemanticItem(rule, s, kebab)
  {
    MapAt(SemanticDeclFor(rule, kebab), styles, i);
    MapAt(SemanticItemFor(rule, kebab), styles, i);
    SemanticEntry(rule, styles[i], kebab);
  }

  /** Background colours drop a trailing `/Default` exactly when the name
      without `Semantic/Bg/` also starts with `Action/`; every other name keeps
      its suffix. */
  lemma BackgroundActionDefault(name: string)
    requires StartsWith(name, "Semantic/Bg/")
    ensures var u := name[12..];
      var n := SemanticName(BackgroundColorRule, name);
      && (n != u <==> StartsWith(u, "Action/") && EndsWith(u, "/Default"))
      && (n != u ==> n + "/Default" == u)
  {
    var u := name[12..];
    assert StripPrefix(name, "Semantic/Bg/") == u;
    if StartsWith(u, "Action/") && EndsWith(u, "/Default") {
      var n := StripSuffix(u, "/Default");
      assert |n| < |u|;
    }
  }

  /** The other three semantic categories never touch a `/Default` suffix, and
      border and divide colours keep the slash after `Semantic/Border`. */
  lemma OtherSemanticNames(name: string)
    ensures SemanticName(TextColorRule, name) == StripPrefix(name, "Semantic/Text/")
    ensures StartsWith(name, "Semantic/Border/") ==>
      SemanticName(BorderColorRule, name) == SemanticName(DivideColorRule, name) == "/" + name[16..]
  {
    if StartsWith(name, "Semantic/Border/") {
      assert name[..15] == name[..16][..15];
      assert name[15] == name[..16][15] == '/';
      assert name[15..] == [name[15]] + name[16..];
    }
  }

  /** `Semantic/Bg/Action/Primary/Default` becomes `Action/Primary`. */
  lemma BackgroundActionExample()
    ensures SemanticName(BackgroundColorRule, "Semantic/Bg/Action/Primary/Default") == "Action/Primary"
  {
    var name := "Semantic/Bg/Action/Primary/Default";
    assert name[..12] == "Semantic/Bg/";
    var u := name[12..];
    assert u == "Action/Primary/Default";
    assert u[..7] == "Action/" && u[|u| - 8..] == "/Default";
    assert u[..|u| - 8] == "Action/Primary";
  }

  /** `Semantic/Bg/Surface/Default` keeps its suffix: it is not an action. */
  lemma BackgroundSurfaceExample()
    ensures SemanticName(BackgroundColorRule, "Semantic/Bg/Surface/Default") == "Surface/Default"
  {
    var name := "Semantic/Bg/Surface/Default";
    assert name[..12] == "Semantic/Bg/";
    var u := name[12..];
    assert u == "Surface/Default";
    assert u[..7] != "Action/" by { assert u[0] != 'A'; }
  }
}
