/** `formatEffect` and the `shadow` category: one `box-shadow` custom
    property, merge key and documentation item per effect style. */
module Shadows {
  import opened Strings
  import opened Sorting
  import opened Color
  import opened Tokens
  import opened Seqs

  /** A number followed by `px`. */
  function Px(n: real, show: Show): string
  {
    show(n) + "px"
  }

  /** The five space-separated parts of a layer: offsets, blur radius, spread, colour. */
  function LayerParts(e: Effect, show: Show): seq<string>
  {
    [Px(e.offset.x, show), Px(e.offset.y, show), Px(e.radius, show), Px(e.spread, show), RgbToHex(e.color)]
  }

  /** `formatEffect`: one shadow layer in `box-shadow` syntax; inner shadows get `inset `. */
  function FormatEffect(e: Effect, show: Show): string
  {
    (if e.kind == "INNER_SHADOW" then "inset " else "") + Join(LayerParts(e, show), " ")
  }

  lemma NumeralHasNoSpace(n: Numeral)
    ensures ' ' !in n && n[0] != 'i'
  {
    if ' ' in n {
      var k :| 0 <= k < |n| && n[k] == ' ';
    }
  }

  lemma LayerPartsHaveNoSpace(e: Effect, show: Show)
    ensures forall i :: 0 <= i < 5 ==> ' ' !in LayerParts(e, show)[i]
  {
    var ps := LayerParts(e, show);
    NumeralHasNoSpace(show(e.offset.x));
    NumeralHasNoSpace(show(e.offset.y));
    NumeralHasNoSpace(show(e.radius));
    NumeralHasNoSpace(show(e.spread));
    var h := RgbToHex(e.color);
    RgbToHexDigits(e.color);
    forall k | 0 <= k < |h| ensures h[k] != ' ' {
      if k > 0 {
        assert IsHexDigit(h[k]);
      }
    }
  }

  /** What follows the optional `inset ` splits on spaces into x, y, blur
      radius and spread (each in `px`) and the hex colour, in that order. */
  lemma FormatEffectParts(e: Effect, show: Show)
    ensures Split(Join(LayerParts(e, show), " "), ' ') ==
      [Px(e.offset.x, show), Px(e.offset.y, show), Px(e.radius, show), Px(e.spread, show), RgbToHex(e.color)]
  {
    LayerPartsHaveNoSpace(e, show);
    SplitJoin(LayerParts(e, show), ' ');
  }

  /** A layer starts with `inset ` exactly when it is an inner shadow. */
  lemma FormatEffectInset(e: Effect, show: Show)
    ensures StartsWith(FormatEffect(e, show), "inset ") <==> e.kind == "INNER_SHADOW"
  {
    var parts := LayerParts(e, show);
    var body := Join(parts, " ");
    NumeralHasNoSpace(show(e.offset.x));
    JoinHead(parts, " ");
    assert body[0] == show(e.offset.x)[0] != 'i';
    if e.kind == "INNER_SHADOW" {
      assert FormatEffect(e, show) == "inset " + body;
      assert (("inset " + body)[..6]) == "inset ";
    } else {
      assert FormatEffect(e, show) == body;
      assert "inset "[0] == 'i';
    }
  }

  /** The value of a shadow style: its layers joined by `, `. */
  function ShadowValue(effects: seq<Effect>, show: Show): string
  {
    Join(FormatLayers(effects, show), ", ")
  }

  /** `effects.map(formatEffect)` */
  function FormatLayers(effects: seq<Effect>, show: Show): seq<string>
  {
    Map(LayerFormat(show), effects)
  }

  function LayerFormat(show: Show): Effect -> string
  {
    (e: Effect) => FormatEffect(e, show)
  }

  function EffectName(s: EffectStyle): string { s.name }

  /** `unprefixedName`: `Elevation/` or else `Elevation ` removed from the front. */
  function ShadowName(name: string): (u: string)
    ensures StartsWith(name, "Elevation/") ==> name == "Elevation/" + u
    ensures !StartsWith(name, "Elevation/") && StartsWith(name, "Elevation ") ==> name == "Elevation " + u
    ensures !StartsWith(name, "Elevation/") && !StartsWith(name, "Elevation ") ==> u == name
  {
    if StartsWith(name, "Elevation/") then StripPrefix(name, "Elevation/") else StripPrefix(name, "Elevation ")
  }

  /** `fillStyles.find(({ name }) => name === styleName)` */
  function FindFill(fillStyles: seq<FillStyle>, styleName: string): (r: Option<FillStyle>)
    ensures r.Some? ==> r.value in fillStyles && r.value.name == styleName
    ensures r.None? <==> forall s :: s in fillStyles ==> s.name != styleName
  {
    if fillStyles == [] then None
    else if fillStyles[0].name == styleName then Some(fillStyles[0])
    else FindFill(fillStyles[1..], styleName)
  }

  /** `find` returns the first match: no earlier style carries the name. */
  lemma {:induction false} FindFillFirst(fillStyles: seq<FillStyle>, styleName: string)
    requires FindFill(fillStyles, styleName).Some?
    ensures exists k :: (0 <= k < |fillStyles| && fillStyles[k] == FindFill(fillStyles, styleName).value &&
                         forall j :: 0 <= j < k ==> fillStyles[j].name != styleName)
  {
    if fillStyles[0].name != styleName {
      FindFillFirst(fillStyles[1..], styleName);
      var k :| 0 <= k < |fillStyles[1..]| && fillStyles[1..][k] == FindFill(fillStyles, styleName).value
        && (forall j :: 0 <= j < k ==> fillStyles[1..][j].name != styleName);
      assert fillStyles[k + 1] == FindFill(fillStyles, styleName).value;
      forall j | 0 <= j < k + 1 ensures fillStyles[j].name != styleName {
        if j > 0 {
          assert fillStyles[j] == fillStyles[1..][j - 1];
        }
      }
    } else {
      assert fillStyles[0] == FindFill(fillStyles, styleName).value;
    }
  }

  /** The local `getColor`: the hex value of the first paint of the named fill
      style, with the colour's own alpha (the paint's opacity is not consulted). */
  function GetColor(fillStyles: seq<FillStyle>, styleName: string): Option<string>
    requires FillsPresent(fillStyles)
  {
    var found := FindFill(fillStyles, styleName);
    if found.None? then None else Some(RgbToHex(found.value.fills[0].color))
  }

  /** The preview background: the `700` step of the shadow's colour family, or
      white when the palette has no such step. */
  function PreviewColor(fillStyles: seq<FillStyle>, shadowType: string): Option<string>
    requires FillsPresent(fillStyles)
  {
    var own := GetColor(fillStyles, "Primitive/" + StripPrefix(shadowType, "Elevation ") + "/700");
    if own.Some? then own else GetColor(fillStyles, "Primitive/White")
  }

  /** The fallback: the family's own `700` colour when the palette has it;
      `Primitive/White` otherwise; nothing only when neither exists. */
  lemma PreviewColorFallback(fillStyles: seq<FillStyle>, shadowType: string)
    requires FillsPresent(fillStyles)
    ensures var own := "Primitive/" + StripPrefix(shadowType, "Elevation ") + "/700";
      var c := PreviewColor(fillStyles, shadowType);
      && ((exists s :: s in fillStyles && s.name == own) ==> c == GetColor(fillStyles, own) && c.Some?)
      && ((forall s :: s in fillStyles ==> s.name != own) ==> c == GetColor(fillStyles, "Primitive/White"))
      && (c.None? <==> forall s :: s in fillStyles ==> s.name != own && s.name != "Primitive/White")
      && (c.Some? ==> ParseHex(c.value).Some?)
  {
    var own := "Primitive/" + StripPrefix(shadowType, "Elevation ") + "/700";
    var c := PreviewColor(fillStyles, shadowType);
    if c.Some? {
      var f := if FindFill(fillStyles, own).Some? then FindFill(fillStyles, own) else FindFill(fillStyles, "Primitive/White");
      HexRoundTrip(f.value.fills[0].color);
    }
  }

  /** The `[type, level]` destructuring of `name.split('/')`: `level` is absent
      when the name has no slash. */
  function ShadowType(name: string): string
  {
    Split(name, '/')[0]
  }

  function ShadowLevel(name: string): Option<string>
  {
    var parts := Split(name, '/');
    if |parts| > 1 then Some(parts[1]) else None
  }

  function ShadowKey(s: EffectStyle, kebab: Kebab): string
  {
    "--shadow-" + kebab(ShadowName(s.name))
  }

  function ShadowDecl(s: EffectStyle, kebab: Kebab, show: Show): string
  {
    ShadowKey(s, kebab) + ": " + ShadowValue(s.effects, show) + ";"
  }

  function ShadowDocsItem(s: EffectStyle, fillStyles: seq<FillStyle>, kebab: Kebab, show: Show): DocsItem
    requires FillsPresent(fillStyles)
  {
    ShadowItem(s.name, "shadow-" + kebab(ShadowName(s.name)),
      "box-shadow: var(" + ShadowKey(s, kebab) + "); /* " + ShadowValue(s.effects, show) + " */",
      ShadowType(s.name), ShadowLevel(s.name),
      PreviewColor(fillStyles, ShadowType(s.name)), ShadowValue(s.effects, show))
  }

  function DeclFor(kebab: Kebab, show: Show): EffectStyle -> string
  {
    (s: EffectStyle) => ShadowDecl(s, kebab, show)
  }

  function KeyFor(kebab: Kebab): EffectStyle -> string
  {
    (s: EffectStyle) => kebab(ShadowName(s.name))
  }

  function ItemFor(fillStyles: seq<FillStyle>, kebab: Kebab, show: Show): EffectStyle --> DocsItem
  {
    (s: EffectStyle) requires FillsPresent(fillStyles) => ShadowDocsItem(s, fillStyles, kebab, show)
  }

  /** The body of the `shadow` builder's loop for one effect style. */
  method DescribeShadow(style: EffectStyle, fillStyles: seq<FillStyle>, kebab: Kebab, show: Show)
    returns (decl: string, mergeKey: string, item: DocsItem)
    requires FillsPresent(fillStyles)
    ensures decl == ShadowDecl(style, kebab, show)
    ensures mergeKey == kebab(ShadowName(style.name))
    ensures item == ShadowDocsItem(style, fillStyles, kebab, show)
  {
    var name := style.name;
    var unprefixedName := if StartsWith(name, "Elevation/")
      then StripPrefix(name, "Elevation/")
      else StripPrefix(name, "Elevation ");
    var themeKey := "--shadow-" + kebab(unprefixedName);
    var value := Join(FormatLayers(style.effects, show), ", ");
    var parts := Split(name, '/');
    var shadowType := parts[0];
    var level := if |parts| > 1 then Some(parts[1]) else None;
    var own := GetColor(fillStyles, "Primitive/" + StripPrefix(shadowType, "Elevation ") + "/700");
    var backgroundColor := if own.Some? then own else GetColor(fillStyles, "Primitive/White");
    assert unprefixedName == ShadowName(name);
    decl := themeKey + ": " + value + ";";
    mergeKey := kebab(unprefixedName);
    item := ShadowItem(name, "shadow-" + kebab(unprefixedName),
      "box-shadow: var(" + themeKey + "); /* " + value + " */",
      shadowType, level, backgroundColor, value);
  }

  /** One iteration of the loop below extends all three outputs by the images of style `i`. */
  lemma ShadowStep(styles: seq<EffectStyle>, fillStyles: seq<FillStyle>, kebab: Kebab, show: Show, i: nat,
                   decls: seq<string>, keys: seq<string>, items: seq<DocsItem>, decl: string, key: string, item: DocsItem)
    requires FillsPresent(fillStyles) && i < |styles|
    requires decls == Map(DeclFor(kebab, show), styles[..i]) && decl == ShadowDecl(styles[i], kebab, show)
    requires keys == Map(KeyFor(kebab), styles[..i]) && key == kebab(ShadowName(styles[i].name))
    requires items == Map(ItemFor(fillStyles, kebab, show), styles[..i]) && item == ShadowDocsItem(styles[i], fillStyles, kebab, show)
    ensures decls + [decl] == Map(DeclFor(kebab, show), styles[..i + 1])
    ensures keys + [key] == Map(KeyFor(kebab), styles[..i + 1])
    ensures items + [item] == Map(ItemFor(fillStyles, kebab, show), styles[..i + 1])
  {
    MapPush(DeclFor(kebab, show), styles, i, decls, decl);
    MapPush(KeyFor(kebab), styles, i, keys, key);
    MapPush(ItemFor(fillStyles, kebab, show), styles, i, items, item);
  }

  /** The loop of the `shadow` builder over the sorted effect styles. */
  method EmitShadows(styles: seq<EffectStyle>, fillStyles: seq<FillStyle>, kebab: Kebab, show: Show)
    returns (themeDecls: seq<string>, twMergeKeys: seq<string>, docsItems: seq<DocsItem>)
    requires FillsPresent(fillStyles)
    ensures themeDecls == Map(DeclFor(kebab, show), styles)
    ensures twMergeKeys == Map(KeyFor(kebab), styles)
    ensures docsItems == Map(ItemFor(fillStyles, kebab, show), styles)
  {
    themeDecls := [];
    twMergeKeys := [];
    docsItems := [];
    for i := 0 to |styles|
      invariant themeDecls == Map(DeclFor(kebab, show), styles[..i])
      invariant twMergeKeys == Map(KeyFor(kebab), styles[..i])
      invariant docsItems == Map(ItemFor(fillStyles, kebab, show), styles[..i])
    {
      var decl, mergeKey, item := DescribeShadow(styles[i], fillStyles, kebab, show);
      ShadowStep(styles, fillStyles, kebab, show, i, themeDecls, twMergeKeys, docsItems, decl, mergeKey, item);
      themeDecls := themeDecls + [decl];
      twMergeKeys := twMergeKeys + [mergeKey];
      docsItems := docsItems + [item];
    }
    assert styles[..|styles|] == styles;
  }

  /** The `shadow` category, over the effect styles in `comparePaths` order. */
  method BuildShadow(effectStyles: seq<EffectStyle>, fillStyles: seq<FillStyle>, kebab: Kebab, show: Show,
                     comparePaths: PathOrder) returns (out: Category)
    requires FillsPresent(fillStyles)
    ensures var styles := SortBy(effectStyles, EffectName, comparePaths);
      && out.themeCss == Some(Join(Map(DeclFor(kebab, show), styles), "\n"))
      && out.twMergeKeys == Some(Map(KeyFor(kebab), styles))
      && out.docsMeta == Some(Map(ItemFor(fillStyles, kebab, show), styles))
      && out.componentsCss.None?
  {
    var styles := SortBy(effectStyles, EffectName, comparePaths);
    var themeDecls, twMergeKeys, docsItems := EmitShadows(styles, fillStyles, kebab, show);
    out := Category(Some(Join(themeDecls, "\n")), None, Some(twMergeKeys), Some(docsItems));
  }

  /** Declaration `i`, merge key `i` and documentation item `i` all describe
      effect style `i`: the declaration defines `--shadow-<key>` with the joined
      layers, the item's class is `shadow-<key>` for the same key, and the item
      documents the declared value. */
  lemma ShadowLayout(styles: seq<EffectStyle>, fillStyles: seq<FillStyle>, kebab: Kebab, show: Show, i: nat)
    requires FillsPresent(fillStyles) && i < |styles|
    ensures var name, key, value := styles[i].name, Map(KeyFor(kebab), styles)[i], ShadowValue(styles[i].effects, show);
      && key == kebab(ShadowName(name))
      && Map(DeclFor(kebab, show), styles)[i] == ShadowKey(styles[i], kebab) + ": " + value + ";"
      && ShadowKey(styles[i], kebab) == "--shadow-" + key
      && Map(ItemFor(fillStyles, kebab, show), styles)[i] ==
           ShadowItem(name, "shadow-" + key, "box-shadow: var(" + ShadowKey(styles[i], kebab) + "); /* " + value + " */",
             ShadowType(name), ShadowLevel(name), PreviewColor(fillStyles, ShadowType(name)), value)
  {
    MapAt(DeclFor(kebab, show), styles, i);
    MapAt(KeyFor(kebab), styles, i);
    MapAt(ItemFor(fillStyles, kebab, show), styles, i);
  }

  /** Every effect style is described exactly as often as it occurs, and, for a
      total preorder, in `comparePaths` order of names. */
  lemma ShadowOrder(effectStyles: seq<EffectStyle>, comparePaths: PathOrder)
    ensures var styles := SortBy(effectStyles, EffectName, comparePaths);
      && multiset(styles) == multiset(effectStyles)
      && (TotalPreorder(comparePaths) ==> SortedBy(styles, EffectName, comparePaths))
  {
    if TotalPreorder(comparePaths) {
      SortBySorted(effectStyles, EffectName, comparePaths);
    }
  }

  /** `Elevation/Raised` and `Elevation Raised/2` both lose their elevation prefix. */
  lemma ShadowNameExamples()
    ensures ShadowName("Elevation/Raised") == "Raised"
    ensures ShadowName("Elevation Raised/2") == "Raised/2"
  {
    var a, b := "Elevation/Raised", "Elevation Raised/2";
    assert a[..10] == "Elevation/";
    assert b[..10] != "Elevation/" by { assert b[9] != '/'; }
    assert b[..10] == "Elevation ";
  }
}
