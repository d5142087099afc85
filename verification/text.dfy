/** The `text` category: a fixed font-size scale, each step written as a
    font-size custom property in rem and a unitless line height. */
module Text {
  import opened Strings
  import opened Tokens
  import opened Seqs

  /** One step of the scale: its name, font size and line height in pixels. */
  datatype SizeStep = SizeStep(name: string, fontSize: real, lineHeight: real)

  const RootFontSize: real := 16.0

  /** The scale in its declared order. */
  const FontSizeScale: seq<SizeStep> := [
    SizeStep("3xs", 10.0, 16.0),
    SizeStep("2xs", 11.0, 18.0),
    SizeStep("xs", 12.0, 20.0),
    SizeStep("sm", 14.0, 24.0),
    SizeStep("base", 16.0, 28.0),
    SizeStep("lg", 18.0, 28.0),
    SizeStep("xl", 20.0, 32.0),
    SizeStep("2xl", 24.0, 40.0),
    SizeStep("3xl", 32.0, 48.0),
    SizeStep("4xl", 40.0, 56.0),
    SizeStep("5xl", 56.0, 80.0),
    SizeStep("6xl", 72.0, 96.0)
  ]

  /** A pixel length in rem. */
  function AsRem(px: real): real
  {
    px / RootFontSize
  }

  /** The custom properties of a step: `--text-<name>` and `--text-<name>--line-height`. */
  function SizeKey(step: SizeStep): string
  {
    "--text-" + step.name
  }

  function LineHeightKey(step: SizeStep): string
  {
    "--text-" + step.name + "--line-height"
  }

  function SizeDecl(step: SizeStep, show: Show): string
  {
    SizeKey(step) + ": " + show(AsRem(step.fontSize)) + "rem;"
  }

  function LineHeightDecl(step: SizeStep, show: Show): string
  {
    LineHeightKey(step) + ": calc(" + show(AsRem(step.lineHeight)) + " / " + show(AsRem(step.fontSize)) + ");"
  }

  function SizeDocsItem(step: SizeStep, show: Show): DocsItem
  {
    SizeItem("text-" + step.name,
      "font-size: var(" + SizeKey(step) + "); /* " + show(step.fontSize) + "px */\n"
      + "line-height: var(" + LineHeightKey(step) + "); /* " + show(step.lineHeight) + "px */")
  }

  /** Both declarations of every step, in order. */
  function SizeDecls(steps: seq<SizeStep>, show: Show): seq<string>
  {
    if steps == [] then []
    else
      var last := steps[|steps| - 1];
      SizeDecls(steps[..|steps| - 1], show) + [SizeDecl(last, show), LineHeightDecl(last, show)]
  }

  function SizeItemFor(show: Show): SizeStep -> DocsItem
  {
    (step: SizeStep) => SizeDocsItem(step, show)
  }

  /** The loop of the `text` builder: two declarations and one item per step. */
  method EmitSizes(steps: seq<SizeStep>, show: Show) returns (themeDecls: seq<string>, docsItems: seq<DocsItem>)
    ensures themeDecls == SizeDecls(steps, show)
    ensures docsItems == Map(SizeItemFor(show), steps)
  {
    themeDecls := [];
    docsItems := [];
    for i := 0 to |steps|
      invariant themeDecls == SizeDecls(steps[..i], show)
      invariant docsItems == Map(SizeItemFor(show), steps[..i])
    {
      var step := steps[i];
      var themeKey := "--text-" + step.name;
      var themeKeyLineHeight := "--text-" + step.name + "--line-height";
      var fontSizeAsRem := step.fontSize / RootFontSize;
      var lineHeightAsRem := step.lineHeight / RootFontSize;
      assert steps[..i + 1][..i] == steps[..i];
      themeDecls := themeDecls + [themeKey + ": " + show(fontSizeAsRem) + "rem;",
                                  themeKeyLineHeight + ": calc(" + show(lineHeightAsRem) + " / " + show(fontSizeAsRem) + ");"];
      var item := SizeItem("text-" + step.name,
        "font-size: var(" + themeKey + "); /* " + show(step.fontSize) + "px */\n"
        + "line-height: var(" + themeKeyLineHeight + "); /* " + show(step.lineHeight) + "px */");
      MapPush(SizeItemFor(show), steps, i, docsItems, item);
      docsItems := docsItems + [item];
    }
    assert steps[..|steps|] == steps;
  }

  /** The `text` category: the declarations of the whole scale and one
      documentation item per step. */
  method BuildText(show: Show) returns (out: Category)
    ensures out.themeCss == Some(Join(SizeDecls(FontSizeScale, show), "\n"))
    ensures out.docsMeta == Some(Map(SizeItemFor(show), FontSizeScale))
    ensures out.componentsCss.None? && out.twMergeKeys.None?
  {
    var themeDecls, docsItems := EmitSizes(FontSizeScale, show);
    out := Category(Some(Join(themeDecls, "\n")), None, None, Some(docsItems));
  }

  /** Step `i` contributes declarations `2 i` (the font size) and `2 i + 1` (the
      line height), and nothing else is written. */
  lemma {:induction false} SizeDeclsLayout(steps: seq<SizeStep>, show: Show)
    ensures |SizeDecls(steps, show)| == 2 * |steps|
    ensures forall i :: 0 <= i < |steps| ==>
      SizeDecls(steps, show)[2 * i] == SizeDecl(steps[i], show)
      && SizeDecls(steps, show)[2 * i + 1] == LineHeightDecl(steps[i], show)
  {
    if steps != [] {
      var init := steps[..|steps| - 1];
      SizeDeclsLayout(init, show);
      forall i | 0 <= i < |init| ensures init[i] == steps[i] { }
    }
  }

  /** The `text` category declares, for step `i` of the scale, a font size of
      `fs` rem and a line height `calc(lh / fs)` over two rem values. The rem
      font size is the pixel size over the root size, and the `calc` evaluates
      to the pixel line height over the pixel font size: a unitless ratio of at
      least 1. */
  lemma {:induction false} ScaleDeclsAt(show: Show, i: nat)
    requires i < |FontSizeScale|
    ensures |SizeDecls(FontSizeScale, show)| == 2 * |FontSizeScale|
    ensures var s := FontSizeScale[i];
      var fs, lh := AsRem(s.fontSize), AsRem(s.lineHeight);
      && SizeDecls(FontSizeScale, show)[2 * i] == SizeKey(s) + ": " + show(fs) + "rem;"
      && SizeDecls(FontSizeScale, show)[2 * i + 1] == LineHeightKey(s) + ": calc(" + show(lh) + " / " + show(fs) + ");"
      && fs * RootFontSize == s.fontSize
      && fs != 0.0 && lh / fs == s.lineHeight / s.fontSize
      && lh / fs >= 1.0
  {
    SizeDeclsLayout(FontSizeScale, show);
    FontSizeScaleShape();
    var s := FontSizeScale[i];
    var l, f := s.lineHeight, s.fontSize;
    assert 0.0 < f <= l;
    assert (l / 16.0) == (l / f) * (f / 16.0);
    assert (l / 16.0) / (f / 16.0) == l / f;
    assert l / f >= 1.0 by { assert l == (l / f) * f; }
  }

  /** The scale grows strictly in font size and never shrinks in line height,
      every line is at least as tall as its font, and no name repeats. */
  lemma FontSizeScaleShape()
    ensures |FontSizeScale| == 12
    ensures forall i, j :: 0 <= i < j < |FontSizeScale| ==>
      FontSizeScale[i].fontSize < FontSizeScale[j].fontSize
      && FontSizeScale[i].lineHeight <= FontSizeScale[j].lineHeight
      && FontSizeScale[i].name != FontSizeScale[j].name
    ensures forall i :: 0 <= i < |FontSizeScale| ==> 0.0 < FontSizeScale[i].fontSize <= FontSizeScale[i].lineHeight
  {
  }
}
