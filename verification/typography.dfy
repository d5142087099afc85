/** The `typography` category: a component class per text style, except for
    the body styles other than `Regular` and the link styles, which are only
    listed in the documentation. */
module Typography {
  import opened Strings
  import opened Tokens
  import opened Seqs
  import opened Text

  /** Body styles other than the `Regular` ones, and link styles, get no class. */
  predicate NameOnly(name: string)
  {
    (StartsWith(name, "Body/") && !EndsWith(name, " Regular")) || StartsWith(name, "Link/")
  }

  predicate HasComponent(t: TextStyle)
  {
    !NameOnly(t.name)
  }

  /** `typography-` and the kebab-cased name without a trailing ` Regular`. */
  function ClassName(name: string, kebab: Kebab): string
  {
    "typography-" + kebab(StripSuffix(name, " Regular"))
  }

  /** The `letter-spacing` value: `0` for no spacing, otherwise the spacing over
      the font size in `em`. A zero font size divides to an infinity of the
      spacing's sign, as in JavaScript. */
  function LetterSpacing(t: TextStyle, show: Show): string
  {
    if t.letterSpacing == 0.0 then "0"
    else if t.fontSize == 0.0 then (if t.letterSpacing > 0.0 then "Infinity" else "-Infinity") + "em"
    else show(t.letterSpacing / t.fontSize) + "em"
  }

  /** The declarations of a component class, one per line, indented. */
  function Declarations(t: TextStyle, show: Show): string
  {
    "  font-weight: " + show(t.fontWeight) + ";\n"
    + "  font-size: " + show(AsRem(t.fontSize)) + "rem;\n"
    + "  line-height: calc(" + show(AsRem(t.lineHeightPx)) + " / " + show(AsRem(t.fontSize)) + ");\n"
    + "  font-family: var(--font-sans);\n"
    + "  letter-spacing: " + LetterSpacing(t, show) + ";\n"
  }

  /** The component rule of a text style: its class selector around the declarations. */
  function ComponentBlock(t: TextStyle, kebab: Kebab, show: Show): string
  {
    "." + ClassName(t.name, kebab) + " {\n" + (Declarations(t, show) + "}")
  }

  /** The documented style: the same declarations, with the pixel values as comments. */
  function Preview(t: TextStyle, show: Show): string
  {
    "font-weight: " + show(t.fontWeight) + ";\n"
    + "font-size: " + show(AsRem(t.fontSize)) + "rem; /* " + show(t.fontSize) + "px */\n"
    + "line-height: calc(" + show(AsRem(t.lineHeightPx)) + " / " + show(AsRem(t.fontSize)) + "); /* "
    + show(t.lineHeightPx) + "px */\n"
    + "font-family: var(--font-sans);\n"
    + "letter-spacing: " + LetterSpacing(t, show) + "; /* " + show(t.letterSpacing) + "px */"
  }

  function TypographyDocsItem(t: TextStyle, kebab: Kebab, show: Show): DocsItem
  {
    if NameOnly(t.name) then NameOnlyItem(t.name)
    else TypographyItem(t.name, ClassName(t.name, kebab), Preview(t, show))
  }

  function BlockFor(kebab: Kebab, show: Show): TextStyle -> string
  {
    (t: TextStyle) => ComponentBlock(t, kebab, show)
  }

  function ItemFor(kebab: Kebab, show: Show): TextStyle -> DocsItem
  {
    (t: TextStyle) => TypographyDocsItem(t, kebab, show)
  }

  /** One iteration of the loop below: a component block only for a style that
      has one, and a documentation item for every style. */
  lemma TypographyStep(styles: seq<TextStyle>, kebab: Kebab, show: Show, i: nat,
                       blocks: seq<string>, items: seq<DocsItem>, newBlocks: seq<string>, item: DocsItem)
    requires i < |styles|
    requires blocks == Map(BlockFor(kebab, show), Filter(HasComponent, styles[..i]))
    requires items == Map(ItemFor(kebab, show), styles[..i])
    requires newBlocks == (if HasComponent(styles[i]) then [ComponentBlock(styles[i], kebab, show)] else [])
    requires item == TypographyDocsItem(styles[i], kebab, show)
    ensures blocks + newBlocks == Map(BlockFor(kebab, show), Filter(HasComponent, styles[..i + 1]))
    ensures items + [item] == Map(ItemFor(kebab, show), styles[..i + 1])
  {
    FilterSnoc(HasComponent, styles, i);
    if HasComponent(styles[i]) {
      MapAppend(BlockFor(kebab, show), Filter(HasComponent, styles[..i]), styles[i]);
    } else {
      assert Filter(HasComponent, styles[..i + 1]) == Filter(HasComponent, styles[..i]);
    }
    MapPush(ItemFor(kebab, show), styles, i, items, item);
  }

  /** The body of the loop for one text style: a name-only item and no rule for
      a non-regular body style or a link style, otherwise its rule and its item. */
  method DescribeTextStyle(t: TextStyle, kebab: Kebab, show: Show) returns (blocks: seq<string>, item: DocsItem)
    ensures blocks == if HasComponent(t) then [ComponentBlock(t, kebab, show)] else []
    ensures item == TypographyDocsItem(t, kebab, show)
  {
    var name := t.name;
    if (StartsWith(name, "Body/") && !EndsWith(name, " Regular")) || StartsWith(name, "Link/") {
      return [], NameOnlyItem(name);
    }
    var className := ClassName(name, kebab);
    var block := "." + className + " {\n" + (Declarations(t, show) + "}");
    return [block], TypographyItem(name, className, Preview(t, show));
  }

  /** The loop of the `typography` builder over the text styles, in input order. */
  method EmitTypography(styles: seq<TextStyle>, kebab: Kebab, show: Show)
    returns (componentsDecls: seq<string>, docsItems: seq<DocsItem>)
    ensures componentsDecls == Map(BlockFor(kebab, show), Filter(HasComponent, styles))
    ensures docsItems == Map(ItemFor(kebab, show), styles)
  {
    componentsDecls := [];
    docsItems := [];
    for i := 0 to |styles|
      invariant componentsDecls == Map(BlockFor(kebab, show), Filter(HasComponent, styles[..i]))
      invariant docsItems == Map(ItemFor(kebab, show), styles[..i])
    {
      var blocks, item := DescribeTextStyle(styles[i], kebab, show);
      TypographyStep(styles, kebab, show, i, componentsDecls, docsItems, blocks, item);
      componentsDecls := componentsDecls + blocks;
      docsItems := docsItems + [item];
    }
    assert styles[..|styles|] == styles;
  }

  /** The `typography` category: component rules separated by blank lines, and
      one documentation item per text style. */
  method BuildTypography(textStyles: seq<TextStyle>, kebab: Kebab, show: Show) returns (out: Category)
    ensures out.componentsCss == Some(Join(Map(BlockFor(kebab, show), Filter(HasComponent, textStyles)), "\n\n"))
    ensures out.docsMeta == Some(Map(ItemFor(kebab, show), textStyles))
    ensures out.themeCss.None? && out.twMergeKeys.None?
  {
    var componentsDecls, docsItems := EmitTypography(textStyles, kebab, show);
    out := Category(None, Some(Join(componentsDecls, "\n\n")), None, Some(docsItems));
  }

  /** Item `i` documents text style `i`: by name only exactly when the style is
      a non-regular body style or a link style, and otherwise with its class and
      its declarations. */
  lemma TypographyItemAt(styles: seq<TextStyle>, kebab: Kebab, show: Show, i: nat)
    requires i < |styles|
    ensures var t, item := styles[i], Map(ItemFor(kebab, show), styles)[i];
      && (item == NameOnlyItem(t.name) <==> NameOnly(t.name))
      && (!NameOnly(t.name) ==> item == TypographyItem(t.name, ClassName(t.name, kebab), Preview(t, show)))
  {
    MapAt(ItemFor(kebab, show), styles, i);
  }

  /** The component rules and the documented classes correspond one to one, in
      order: the `j`-th rule and the `j`-th item with a class both come from the
      `j`-th text style that has a component, and the rule's selector is that
      item's class. */
  lemma ComponentsMatchItems(styles: seq<TextStyle>, kebab: Kebab, show: Show)
    ensures var styled := Filter(HasComponent, styles);
      var blocks := Map(BlockFor(kebab, show), styled);
      var documented := Filter(IsTypographyItem, Map(ItemFor(kebab, show), styles));
      && |blocks| == |documented| == |styled|
      && forall j :: 0 <= j < |styled| ==>
           && documented[j] == TypographyItem(styled[j].name, ClassName(styled[j].name, kebab), Preview(styled[j], show))
           && StartsWith(blocks[j], "." + ClassName(styled[j].name, kebab) + " {\n")
  {
    var styled := Filter(HasComponent, styles);
    DocumentedAreStyled(styles, kebab, show);
    FilterKeeps(HasComponent, styles);
    assert forall j :: 0 <= j < |styled| ==> styled[j] in styled;
    StyledAt(styled, kebab, show);
  }

  lemma StyledAt(styled: seq<TextStyle>, kebab: Kebab, show: Show)
    requires forall j :: 0 <= j < |styled| ==> HasComponent(styled[j])
    ensures forall j :: 0 <= j < |styled| ==>
      && Map(ItemFor(kebab, show), styled)[j] == TypographyItem(styled[j].name, ClassName(styled[j].name, kebab), Preview(styled[j], show))
      && StartsWith(Map(BlockFor(kebab, show), styled)[j], "." + ClassName(styled[j].name, kebab) + " {\n")
  {
    forall j | 0 <= j < |styled|
      ensures Map(ItemFor(kebab, show), styled)[j]
           == TypographyItem(styled[j].name, ClassName(styled[j].name, kebab), Preview(styled[j], show))
      ensures StartsWith(Map(BlockFor(kebab, show), styled)[j], "." + ClassName(styled[j].name, kebab) + " {\n")
    {
      MapAt(ItemFor(kebab, show), styled, j);
      MapAt(BlockFor(kebab, show), styled, j);
      StyledEntry(styled[j], kebab, show);
    }
  }

  /** The items with a class are the items of the styles with a component. */
  lemma DocumentedAreStyled(styles: seq<TextStyle>, kebab: Kebab, show: Show)
    ensures Filter(IsTypographyItem, Map(ItemFor(kebab, show), styles))
         == Map(ItemFor(kebab, show), Filter(HasComponent, styles))
  {
    forall t ensures HasComponent(t) == IsTypographyItem(ItemFor(kebab, show)(t)) { }
    FilterMap(IsTypographyItem, HasComponent, ItemFor(kebab, show), styles);
  }

  /** A style with a component is documented with its class, and its rule opens with that class. */
  lemma StyledEntry(t: TextStyle, kebab: Kebab, show: Show)
    requires HasComponent(t)
    ensures ItemFor(kebab, show)(t) == TypographyItem(t.name, ClassName(t.name, kebab), Preview(t, show))
    ensures StartsWith(BlockFor(kebab, show)(t), "." + ClassName(t.name, kebab) + " {\n")
  {
    PrefixOfConcat("." + ClassName(t.name, kebab) + " {\n", Declarations(t, show) + "}");
  }

  predicate IsTypographyItem(d: DocsItem)
  {
    d.TypographyItem?
  }

  lemma PrefixOfConcat(a: string, b: string)
    ensures StartsWith(a + b, a)
  {
    assert (a + b)[..|a|] == a;
  }

  /** The spacing is written as a bare `0` exactly when it is zero; any other
      spacing carries the `em` unit. */
  lemma LetterSpacingZero(t: TextStyle, show: Show)
    ensures LetterSpacing(t, show) == "0" <==> t.letterSpacing == 0.0
    ensures t.letterSpacing != 0.0 ==> EndsWith(LetterSpacing(t, show), "em")
  {
    if t.letterSpacing != 0.0 {
      var s := LetterSpacing(t, show);
      if t.fontSize != 0.0 {
        var n := show(t.letterSpacing / t.fontSize);
        assert |n| > 0;
        assert s == n + "em";
      }
      assert s[|s| - 2..] == "em";
    }
  }

  /** `Body/Small Bold` and `Link/Default` are listed by name only. */
  lemma NameOnlyExamples()
    ensures NameOnly("Body/Small Bold") && NameOnly("Link/Default")
  {
    assert "Body/Small Bold"[..5] == "Body/";
    assert !EndsWith("Body/Small Bold", " Regular") by { assert "Body/Small Bold"[7] == 'a'; }
    assert "Link/Default"[..5] == "Link/";
  }

  /** `Body/Small Regular` and `Heading/H1` get component classes. */
  lemma ComponentExamples()
    ensures !NameOnly("Body/Small Regular") && !NameOnly("Heading/H1")
  {
    assert "Body/Small Regular"[10..] == " Regular";
    assert !StartsWith("Body/Small Regular", "Link/") by { assert "Body/Small Regular"[0] == 'B'; }
    assert !StartsWith("Heading/H1", "Body/") by { assert "Heading/H1"[0] == 'H'; }
    assert !StartsWith("Heading/H1", "Link/") by { assert "Heading/H1"[0] == 'H'; }
  }

  /** The class of every name: a trailing ` Regular` is dropped before
      kebab-casing, and any other name is kebab-cased whole. */
  lemma ClassNameRule(name: string, kebab: Kebab)
    ensures EndsWith(name, " Regular") ==> ClassName(name, kebab) == "typography-" + kebab(name[..|name| - 8])
    ensures !EndsWith(name, " Regular") ==> ClassName(name, kebab) == "typography-" + kebab(name)
    ensures forall base :: name == base + " Regular" ==> ClassName(name, kebab) == "typography-" + kebab(base)
  {
    forall base | name == base + " Regular"
      ensures ClassName(name, kebab) == "typography-" + kebab(base)
    {
      assert name[|base|..] == " Regular";
      assert name[..|name| - 8] == base;
    }
  }

  /** Two instances: `Body/Small Regular` loses its suffix, `Heading/H1` is kept whole. */
  lemma ClassNameExample(kebab: Kebab)
    ensures ClassName("Body/Small Regular", kebab) == "typography-" + kebab("Body/Small")
    ensures ClassName("Heading/H1", kebab) == "typography-" + kebab("Heading/H1")
  {
    assert "Body/Small Regular"[10..] == " Regular";
    assert "Body/Small Regular"[..10] == "Body/Small";
    assert "Heading/H1"[2..] != " Regular";
  }
}
