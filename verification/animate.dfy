/** The `animate` category: a fixed table of named animations, each written as
    an `--animate-<name>` custom property and registered as a merge key. */
module Animate {
  import opened Strings
  import opened Tokens
  import opened Seqs

  /** One animation: its name and its `animation` shorthand value. */
  datatype Animation = Animation(name: string, value: string)

  const EaseOutBack := "cubic-bezier(0.25, 0.46, 0.45, 0.94)"

  /** The table in its declared order. */
  const Animations: seq<Animation> := [
    Animation("swing", "swing 0.8s ease"),
    Animation("fade-in-150", "fade-in 0.15s ease-out"),
    Animation("fade-out-150", "fade-out 0.15s ease-in"),
    Animation("fade-in-300", "fade-in 0.3s ease-out"),
    Animation("fade-out-300", "fade-out 0.3s ease-in"),
    Animation("zoom-in-150", "zoom-in 0.15s ease-out"),
    Animation("zoom-in-300", "zoom-in 0.3s ease-out"),
    Animation("slide-in-right-150", "slide-in-right 0.15s " + EaseOutBack + " both"),
    Animation("slide-in-right-300", "slide-in-right 0.3s " + EaseOutBack + " both"),
    Animation("slide-in-bottom-150", "slide-in-bottom 0.15s " + EaseOutBack + " both"),
    Animation("slide-in-bottom-300", "slide-in-bottom 0.3s " + EaseOutBack + " both"),
    Animation("inflate-150", "inflate 0.15s ease-out"),
    Animation("inflate-300", "inflate 0.3s ease-out"),
    Animation("accordion-slide-down", "accordion-slide-down 0.15s ease-out"),
    Animation("accordion-slide-up", "accordion-slide-up 0.15s ease-out")
  ]

  function AnimateDecl(a: Animation): string
  {
    "--animate-" + a.name + ": " + a.value + ";"
  }

  function AnimationName(a: Animation): string
  {
    a.name
  }

  /** The loop of the `animate` builder: one declaration and one merge key per animation. */
  method EmitAnimations(xs: seq<Animation>) returns (themeDecls: seq<string>, twMergeKeys: seq<string>)
    ensures themeDecls == Map(AnimateDecl, xs)
    ensures twMergeKeys == Map(AnimationName, xs)
  {
    themeDecls := [];
    twMergeKeys := [];
    for i := 0 to |xs|
      invariant themeDecls == Map(AnimateDecl, xs[..i])
      invariant twMergeKeys == Map(AnimationName, xs[..i])
    {
      var a := xs[i];
      var decl := "--animate-" + a.name + ": " + a.value + ";";
      MapPush(AnimateDecl, xs, i, themeDecls, decl);
      MapPush(AnimationName, xs, i, twMergeKeys, a.name);
      themeDecls := themeDecls + [decl];
      twMergeKeys := twMergeKeys + [a.name];
    }
    assert xs[..|xs|] == xs;
  }

  /** The `animate` category: theme declarations and merge keys, no documentation. */
  method BuildAnimate() returns (out: Category)
    ensures out.themeCss == Some(Join(Map(AnimateDecl, Animations), "\n"))
    ensures out.twMergeKeys == Some(Map(AnimationName, Animations))
    ensures out.componentsCss.None? && out.docsMeta.None?
  {
    var themeDecls, twMergeKeys := EmitAnimations(Animations);
    out := Category(Some(Join(themeDecls, "\n")), None, Some(twMergeKeys), None);
  }

  /** The `i`-th merge key is the name whose custom property the `i`-th
      declaration defines, followed by that animation's value. */
  lemma {:induction false} MergeKeysMatchDecls(xs: seq<Animation>)
    ensures |Map(AnimateDecl, xs)| == |Map(AnimationName, xs)| == |xs|
    ensures forall i :: 0 <= i < |xs| ==>
      Map(AnimateDecl, xs)[i] == "--animate-" + Map(AnimationName, xs)[i] + ": " + xs[i].value + ";"
  {
    forall i | 0 <= i < |xs|
      ensures Map(AnimateDecl, xs)[i] == "--animate-" + Map(AnimationName, xs)[i] + ": " + xs[i].value + ";"
    {
      MapAt(AnimateDecl, xs, i);
      MapAt(AnimationName, xs, i);
    }
  }

  /** The table has fifteen animations and no name repeats, so no custom
      property is declared twice and no merge key is listed twice. */
  lemma AnimationsDistinct()
    ensures |Animations| == 15
    ensures forall i, j :: 0 <= i < j < |Animations| ==> Animations[i].name != Animations[j].name
  {
  }

  /** The merge keys the `animate` category returns are fifteen distinct names. */
  lemma {:induction false} MergeKeysDistinct()
    ensures |Map(AnimationName, Animations)| == 15
    ensures forall i, j :: 0 <= i < j < |Animations| ==> Map(AnimationName, Animations)[i] != Map(AnimationName, Animations)[j]
  {
    AnimationsDistinct();
    forall i, j | 0 <= i < j < |Animations|
      ensures Map(AnimationName, Animations)[i] != Map(AnimationName, Animations)[j]
    {
      MapAt(AnimationName, Animations, i);
      MapAt(AnimationName, Animations, j);
    }
  }
}
