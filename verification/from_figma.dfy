/** The normaliser that turns the design tool's style list and node lookup into
    the style records the generator reads: styles are taken in `sort_position`
    order, dispatched on their style type, their names have the spaces around
    every `/` removed, and fill styles whose first paint is not solid are
    dropped. */
module FromFigma {
  import opened Strings
  import opened Sorting
  import opened Tokens
  import opened Seqs

  /** One entry of the style list: which node holds the style, and how it is named and ordered. */
  datatype StyleMeta = StyleMeta(nodeId: string, name: string, styleType: string, sortPosition: string)

  /** The text properties of a text node that the generator reads. */
  datatype TypeStyle = TypeStyle(fontWeight: real, fontSize: real, lineHeightPx: real, letterSpacing: real)

  /** A style's document node, with the properties the normaliser reads from it
      when it takes it as a text node (`style`) or as a rectangle (`fills`, `effects`). */
  datatype Node = Node(style: TypeStyle, fills: seq<Paint>, effects: seq<Effect>)

  /** An emitted record; its `type` field is `TypeOf`. */
  datatype StyleRecord =
    | TextRecord(text: TextStyle)
    | EffectRecord(effect: EffectStyle)
    | FillRecord(fill: FillStyle)

  /** Reading a property of a node that is not there throws a TypeError. */
  datatype Failure = MissingNode(styleName: string) | MissingFill(styleName: string)

  datatype Result<T> = Ok(value: T) | Err(error: Failure)

  function SortPosition(s: StyleMeta): string {
    s.sortPosition
  }

  function TypeOf(r: StyleRecord): string {
    match r
    case TextRecord(_) => "TEXT"
    case EffectRecord(_) => "EFFECT"
    case FillRecord(_) => "FILL"
  }

  function NameOf(r: StyleRecord): string {
    match r
    case TextRecord(t) => t.name
    case EffectRecord(e) => e.name
    case FillRecord(f) => f.name
  }

  // ---------------------------------------------------------------------------
  // name.replaceAll(/ *\/ */g, '/')

  /** The number of spaces `s` starts with. */
  function LeadingSpaces(s: string): (n: nat)
    ensures n <= |s|
    ensures n < |s| ==> s[n] != ' '
  {
    if s != [] && s[0] == ' ' then 1 + LeadingSpaces(s[1..]) else 0
  }

  lemma {:induction false} LeadingSpacesAreSpaces(s: string)
    ensures forall i :: 0 <= i < LeadingSpaces(s) ==> s[i] == ' '
  {
    if s != [] && s[0] == ' ' {
      LeadingSpacesAreSpaces(s[1..]);
      assert forall i :: 1 <= i < LeadingSpaces(s) ==> s[i] == s[1..][i - 1];
    }
  }

  /** Every run of spaces, a slash and spaces is replaced by a bare slash,
      scanning left to right as a global regular-expression replacement does. */
  function CollapseSlashes(s: string): string
    decreases |s|
  {
    if s == [] then []
    else
      var n := LeadingSpaces(s);
      if n < |s| && s[n] == '/' then
        var after := s[n + 1..];
        "/" + CollapseSlashes(after[LeadingSpaces(after)..])
      else
        [s[0]] + CollapseSlashes(s[1..])
  }

  predicate NoSpaceNextToSlash(s: string) {
    forall i :: 0 <= i < |s| - 1 ==> !(s[i] == ' ' && s[i + 1] == '/') && !(s[i] == '/' && s[i + 1] == ' ')
  }

  /** `s` without its spaces. */
  function Unspaced(s: string): (r: string)
    ensures ' ' !in r
  {
    if s == [] then [] else (if s[0] == ' ' then [] else [s[0]]) + Unspaced(s[1..])
  }

  /** What the first character of the result says about the input. */
  lemma CollapseFirst(s: string)
    ensures CollapseSlashes(s) == [] <==> s == []
    ensures CollapseSlashes(s) != [] && CollapseSlashes(s)[0] == ' ' ==> s[0] == ' '
    ensures CollapseSlashes(s) != [] && CollapseSlashes(s)[0] == '/' ==>
              LeadingSpaces(s) < |s| && s[LeadingSpaces(s)] == '/'
  {
  }

  /** Putting a character in front keeps the property when it does not form a
      space-slash or slash-space pair with the first character. */
  lemma ConsNoSpaceNextToSlash(c: char, r: string)
    requires NoSpaceNextToSlash(r)
    requires c == ' ' && r != [] ==> r[0] != '/'
    requires c == '/' && r != [] ==> r[0] != ' '
    ensures NoSpaceNextToSlash([c] + r)
  {
    var cr := [c] + r;
    forall i | 0 <= i < |cr| - 1
      ensures !(cr[i] == ' ' && cr[i + 1] == '/') && !(cr[i] == '/' && cr[i + 1] == ' ')
    {
      if i > 0 {
        assert cr[i] == r[i - 1] && cr[i + 1] == r[i];
      }
    }
  }

  /** The result has no space directly before or after a slash. */
  lemma {:induction false} CollapseLeavesNoSpaceNextToSlash(s: string)
    ensures NoSpaceNextToSlash(CollapseSlashes(s))
    decreases |s|
  {
    if s != [] {
      var n := LeadingSpaces(s);
      if n < |s| && s[n] == '/' {
        var after := s[n + 1..];
        var t := after[LeadingSpaces(after)..];
        CollapseLeavesNoSpaceNextToSlash(t);
        CollapseFirst(t);
        assert CollapseSlashes(s) == "/" + CollapseSlashes(t);
        ConsNoSpaceNextToSlash('/', CollapseSlashes(t));
      } else {
        var t := s[1..];
        CollapseLeavesNoSpaceNextToSlash(t);
        CollapseFirst(t);
        assert CollapseSlashes(s) == [s[0]] + CollapseSlashes(t);
        ConsNoSpaceNextToSlash(s[0], CollapseSlashes(t));
      }
    }
  }

  /** Leading spaces do not change the unspaced text. */
  lemma {:induction false} UnspacedSkipsSpaces(s: string, n: nat)
    requires n <= |s| && forall i :: 0 <= i < n ==> s[i] == ' '
    ensures Unspaced(s[n..]) == Unspaced(s)
  {
    if n > 0 {
      UnspacedSkipsSpaces(s[1..], n - 1);
      assert s[1..][n - 1..] == s[n..];
    }
  }

  /** Only spaces are removed: every other character is kept, in order. */
  lemma {:induction false} CollapseRemovesOnlySpaces(s: string)
    ensures Unspaced(CollapseSlashes(s)) == Unspaced(s)
    decreases |s|
  {
    if s != [] {
      var n := LeadingSpaces(s);
      if n < |s| && s[n] == '/' {
        var after := s[n + 1..];
        var m := LeadingSpaces(after);
        var t := after[m..];
        CollapseRemovesOnlySpaces(t);
        LeadingSpacesAreSpaces(after);
        LeadingSpacesAreSpaces(s);
        UnspacedSkipsSpaces(after, m);
        UnspacedSkipsSpaces(s, n);
        assert s[n..][1..] == after;
        assert Unspaced(s[n..]) == "/" + Unspaced(after);
        assert ("/" + CollapseSlashes(t))[1..] == CollapseSlashes(t);
      } else {
        CollapseRemovesOnlySpaces(s[1..]);
        assert ([s[0]] + CollapseSlashes(s[1..]))[1..] == CollapseSlashes(s[1..]);
      }
    }
  }

  lemma SlashNotAfterSpace(s: string, k: nat)
    requires NoSpaceNextToSlash(s)
    requires 0 < k < |s| && s[k - 1] == ' '
    ensures s[k] != '/'
  {
    assert !(s[k - 1] == ' ' && s[k - 1 + 1] == '/');
  }

  /** A name without spaces next to its slashes is left as it is. */
  lemma {:induction false} CollapseKeepsCleanName(s: string)
    requires NoSpaceNextToSlash(s)
    ensures CollapseSlashes(s) == s
    decreases |s|
  {
    if s != [] {
      var n := LeadingSpaces(s);
      if 0 < n < |s| {
        LeadingSpacesAreSpaces(s);
        SlashNotAfterSpace(s, n);
      }
      assert NoSpaceNextToSlash(s[1..]) by {
        forall i | 0 <= i < |s[1..]| - 1
          ensures !(s[1..][i] == ' ' && s[1..][i + 1] == '/') && !(s[1..][i] == '/' && s[1..][i + 1] == ' ')
        {
          assert s[1..][i] == s[i + 1] && s[1..][i + 1] == s[i + 2];
        }
      }
      if n < |s| && s[n] == '/' {
        var after := s[1..];
        if |after| > 0 {
          assert !(s[0] == '/' && s[1] == ' ');
          assert after[0] == s[1];
        }
        assert LeadingSpaces(after) == 0;
        CollapseKeepsCleanName(after);
        assert s == "/" + after;
      } else {
        CollapseKeepsCleanName(s[1..]);
        assert s == [s[0]] + s[1..];
      }
    }
  }

  /** Normalising a normalised name changes nothing. */
  lemma CollapseIdempotent(s: string)
    ensures CollapseSlashes(CollapseSlashes(s)) == CollapseSlashes(s)
  {
    CollapseLeavesNoSpaceNextToSlash(s);
    CollapseKeepsCleanName(CollapseSlashes(s));
  }

  function Spaces(n: nat): string
  {
    seq(n, _ => ' ')
  }

  /** The same replacement as a one-pass scan, an independent definition:
      spaces are held back while a slash may still follow them, dropped when
      one does, and skipped right after a slash; any other character (or the
      end of the name) releases the spaces held. */
  function Scan(s: string, held: nat, afterSlash: bool): string
    decreases |s|
  {
    if s == [] then Spaces(held)
    else if s[0] == ' ' then
      if afterSlash then Scan(s[1..], 0, true) else Scan(s[1..], held + 1, false)
    else if s[0] == '/' then "/" + Scan(s[1..], 0, true)
    else Spaces(held) + [s[0]] + Scan(s[1..], 0, false)
  }

  lemma {:induction false} LeadingSpacesOfSpaces(n: nat, t: string)
    ensures LeadingSpaces(Spaces(n) + t) == n + LeadingSpaces(t)
  {
    var u := Spaces(n) + t;
    if n > 0 {
      LeadingSpacesOfSpaces(n - 1, t);
      assert u[0] == ' ' && u[1..] == Spaces(n - 1) + t;
    } else {
      assert u == t;
    }
  }

  /** Spaces followed by the end or by a character other than a space or a
      slash are kept. */
  lemma {:induction false} CollapseKeepsSpaces(n: nat, t: string)
    requires t == [] || (t[0] != ' ' && t[0] != '/')
    ensures CollapseSlashes(Spaces(n) + t) == Spaces(n) + CollapseSlashes(t)
  {
    if n > 0 {
      var u := Spaces(n) + t;
      LeadingSpacesOfSpaces(n, t);
      assert LeadingSpaces(t) == 0;
      assert t != [] ==> u[n] == t[0];
      assert CollapseSlashes(u) == [u[0]] + CollapseSlashes(u[1..]);
      assert u[0] == ' ' && u[1..] == Spaces(n - 1) + t;
      CollapseKeepsSpaces(n - 1, t);
      assert Spaces(n) == [' '] + Spaces(n - 1);
    } else {
      assert Spaces(n) + t == t;
    }
  }

  /** Spaces followed by a slash are dropped with the spaces after it. */
  lemma CollapseDropsSpaces(n: nat, t: string)
    requires t != [] && t[0] == '/'
    ensures CollapseSlashes(Spaces(n) + t) == "/" + CollapseSlashes(t[1..][LeadingSpaces(t[1..])..])
  {
    var u := Spaces(n) + t;
    LeadingSpacesOfSpaces(n, t);
    assert u[n] == '/' && u[n + 1..] == t[1..];
  }

  /** The scan with `held` spaces pending produces the replacement of the name
      with those spaces in front. */
  lemma {:induction false} ScanHeld(s: string, held: nat)
    ensures Scan(s, held, false) == CollapseSlashes(Spaces(held) + s)
    decreases |s|, 1
  {
    if s == [] {
      CollapseKeepsSpaces(held, s);
    } else if s[0] == ' ' {
      ScanHeld(s[1..], held + 1);
      assert Spaces(held + 1) + s[1..] == Spaces(held) + s;
    } else if s[0] == '/' {
      ScanAfterSlash(s[1..]);
      CollapseDropsSpaces(held, s);
    } else {
      ScanHeld(s[1..], 0);
      assert Spaces(0) + s[1..] == s[1..];
      CollapseKeepsSpaces(held, s);
      assert CollapseSlashes(s) == [s[0]] + CollapseSlashes(s[1..]);
    }
  }

  /** Right after a slash the scan produces the replacement of the rest
      without its leading spaces. */
  lemma {:induction false} ScanAfterSlash(s: string)
    ensures Scan(s, 0, true) == CollapseSlashes(s[LeadingSpaces(s)..])
    decreases |s|, 0
  {
    if s == [] {
    } else if s[0] == ' ' {
      ScanAfterSlash(s[1..]);
      assert s[LeadingSpaces(s)..] == s[1..][LeadingSpaces(s[1..])..];
    } else if s[0] == '/' {
      ScanAfterSlash(s[1..]);
      assert s[LeadingSpaces(s)..] == s;
    } else {
      ScanHeld(s[1..], 0);
      assert Spaces(0) + s[1..] == s[1..];
      assert s[LeadingSpaces(s)..] == s;
    }
  }

  /** The regular-expression replacement is the one-pass scan: exactly the
      spaces of a run that touches a slash are removed, every other character
      is kept in order. */
  lemma CollapseIsScan(s: string)
    ensures CollapseSlashes(s) == Scan(s, 0, false)
  {
    ScanHeld(s, 0);
    assert Spaces(0) + s == s;
  }

  lemma CollapseExample()
    ensures CollapseSlashes("A / B") == "A/B"
  {
    assert LeadingSpaces("A / B") == 0;
    assert LeadingSpaces(" / B") == 1;
    assert " / B"[2..] == " B";
    assert LeadingSpaces(" B") == 1;
    assert " B"[1..] == "B";
    assert CollapseSlashes("B") == "B";
    assert "A / B"[1..] == " / B";
  }

  // ---------------------------------------------------------------------------
  // The loop over the sorted styles

  /** Reading the style's node (and, for a fill, its first paint) does not throw. */
  predicate Resolves(nodes: map<string, Node>, s: StyleMeta) {
    if s.styleType == "TEXT" || s.styleType == "EFFECT" then s.nodeId in nodes
    else if s.styleType == "FILL" then s.nodeId in nodes && |nodes[s.nodeId].fills| > 0
    else true
  }

  predicate AllResolve(nodes: map<string, Node>, xs: seq<StyleMeta>) {
    forall s :: s in xs ==> Resolves(nodes, s)
  }

  /** The error thrown for a style that does not resolve. */
  function FailureOf(nodes: map<string, Node>, s: StyleMeta): Failure {
    if s.nodeId !in nodes then MissingNode(s.name) else MissingFill(s.name)
  }

  /** The style produces a record: text and effect styles always, fill styles
      when their first paint is solid, any other type never. */
  predicate Emits(nodes: map<string, Node>, s: StyleMeta) {
    || s.styleType == "TEXT"
    || s.styleType == "EFFECT"
    || (s.styleType == "FILL" && s.nodeId in nodes && |nodes[s.nodeId].fills| > 0
        && nodes[s.nodeId].fills[0].kind == "SOLID")
  }

  function Emitted(nodes: map<string, Node>): StyleMeta -> bool {
    (s: StyleMeta) => Emits(nodes, s)
  }

  /** The record pushed for an emitted style whose node is `node`. */
  function Record(s: StyleMeta, node: Node): (r: StyleRecord)
    requires s.styleType == "TEXT" || s.styleType == "EFFECT" || s.styleType == "FILL"
    ensures TypeOf(r) == s.styleType
    ensures NameOf(r) == CollapseSlashes(s.name)
    ensures r.TextRecord? ==>
      && r.text.fontWeight == node.style.fontWeight && r.text.fontSize == node.style.fontSize
      && r.text.lineHeightPx == node.style.lineHeightPx && r.text.letterSpacing == node.style.letterSpacing
    ensures r.EffectRecord? ==> r.effect.effects == node.effects
    ensures r.FillRecord? ==> r.fill.fills == node.fills
  {
    var name := CollapseSlashes(s.name);
    if s.styleType == "TEXT" then
      TextRecord(TextStyle(name, node.style.fontWeight, node.style.fontSize, node.style.lineHeightPx,
                           node.style.letterSpacing))
    else if s.styleType == "EFFECT" then EffectRecord(EffectStyle(name, node.effects))
    else FillRecord(FillStyle(name, node.fills))
  }

  function RecordOf(nodes: map<string, Node>): StyleMeta --> StyleRecord {
    (s: StyleMeta) requires Emits(nodes, s) && s.nodeId in nodes => Record(s, nodes[s.nodeId])
  }

  /** The emitted styles of a sequence that resolves have their nodes. */
  lemma KeptResolve(nodes: map<string, Node>, xs: seq<StyleMeta>)
    requires AllResolve(nodes, xs)
    ensures forall i :: 0 <= i < |Filter(Emitted(nodes), xs)| ==>
      var s := Filter(Emitted(nodes), xs)[i]; s in xs && Emits(nodes, s) && s.nodeId in nodes
  {
    var kept := Filter(Emitted(nodes), xs);
    FilterKeeps(Emitted(nodes), xs);
    forall i | 0 <= i < |kept| ensures kept[i] in xs && Emits(nodes, kept[i]) && kept[i].nodeId in nodes {
      assert kept[i] in kept;
      assert Resolves(nodes, kept[i]);
    }
  }

  /** The records produced for `xs` when none of them throws: the images of the
      emitted styles, in order; never more records than styles. */
  function Records(nodes: map<string, Node>, xs: seq<StyleMeta>): (rs: seq<StyleRecord>)
    requires AllResolve(nodes, xs)
    ensures |rs| <= |xs|
  {
    KeptResolve(nodes, xs);
    Map(RecordOf(nodes), Filter(Emitted(nodes), xs))
  }

  /** One iteration of the loop extends the records by those of style `i`. */
  lemma RecordsStep(nodes: map<string, Node>, xs: seq<StyleMeta>, i: nat, records: seq<StyleRecord>, pushed: seq<StyleRecord>)
    requires i < |xs| && AllResolve(nodes, xs[..i]) && Resolves(nodes, xs[i])
    requires records == Records(nodes, xs[..i])
    requires pushed == if Emits(nodes, xs[i]) then [Record(xs[i], nodes[xs[i].nodeId])] else []
    ensures AllResolve(nodes, xs[..i + 1])
    ensures records + pushed == Records(nodes, xs[..i + 1])
  {
    assert xs[..i + 1] == xs[..i] + [xs[i]];
    FilterSnoc(Emitted(nodes), xs, i);
    KeptResolve(nodes, xs[..i]);
    assert Emitted(nodes)(xs[i]) == Emits(nodes, xs[i]);
    if Emits(nodes, xs[i]) {
      var kept := Filter(Emitted(nodes), xs[..i]);
      assert Filter(Emitted(nodes), xs[..i + 1]) == kept + [xs[i]];
      MapAppend(RecordOf(nodes), kept, xs[i]);
      assert RecordOf(nodes)(xs[i]) == Record(xs[i], nodes[xs[i].nodeId]);
    } else {
      assert Filter(Emitted(nodes), xs[..i + 1]) == Filter(Emitted(nodes), xs[..i]);
    }
  }

  /** The body of the loop for one style: the records it pushes (none or one),
      or the error reading its node throws. */
  method NormaliseStyle(style: StyleMeta, nodes: map<string, Node>) returns (out: Result<seq<StyleRecord>>)
    ensures out.Ok? <==> Resolves(nodes, style)
    ensures out.Ok? ==> out.value == if Emits(nodes, style) then [Record(style, nodes[style.nodeId])] else []
    ensures out.Err? ==> out.error == FailureOf(nodes, style)
  {
    if style.styleType == "TEXT" {
      if style.nodeId !in nodes {
        return Err(MissingNode(style.name));
      }
      var textNode := nodes[style.nodeId];
      return Ok([TextRecord(TextStyle(CollapseSlashes(style.name), textNode.style.fontWeight,
                                      textNode.style.fontSize, textNode.style.lineHeightPx,
                                      textNode.style.letterSpacing))]);
    } else if style.styleType == "EFFECT" {
      if style.nodeId !in nodes {
        return Err(MissingNode(style.name));
      }
      var rectangleNode := nodes[style.nodeId];
      return Ok([EffectRecord(EffectStyle(CollapseSlashes(style.name), rectangleNode.effects))]);
    } else if style.styleType == "FILL" {
      if style.nodeId !in nodes {
        return Err(MissingNode(style.name));
      }
      var rectangleNode := nodes[style.nodeId];
      if |rectangleNode.fills| == 0 {
        return Err(MissingFill(style.name));
      }
      if rectangleNode.fills[0].kind == "SOLID" {
        return Ok([FillRecord(FillStyle(CollapseSlashes(style.name), rectangleNode.fills))]);
      }
    }
    return Ok([]);
  }

  /** `fileRESTResponseToStylesJSON`: the styles in `sort_position` order
      (`localeLe` is `localeCompare(a, b) <= 0`), each dispatched on its type;
      the first style whose node cannot be read ends the run with its error. */
  method FileStylesToRecords(styles: seq<StyleMeta>, nodes: map<string, Node>, localeLe: (string, string) -> bool)
    returns (out: Result<seq<StyleRecord>>)
    ensures var sorted := SortBy(styles, SortPosition, localeLe);
      && (out.Ok? <==> AllResolve(nodes, sorted))
      && (AllResolve(nodes, sorted) ==> out == Ok(Records(nodes, sorted)))
      && (out.Err? ==>
            exists i :: 0 <= i < |sorted| && !Resolves(nodes, sorted[i])
                        && AllResolve(nodes, sorted[..i])
                        && out.error == FailureOf(nodes, sorted[i]))
  {
    var sorted := SortBy(styles, SortPosition, localeLe);
    var result: seq<StyleRecord> := [];
    for i := 0 to |sorted|
      invariant AllResolve(nodes, sorted[..i])
      invariant result == Records(nodes, sorted[..i])
    {
      var pushed := NormaliseStyle(sorted[i], nodes);
      if pushed.Err? {
        Unresolved(nodes, sorted, i);
        return Err(pushed.error);
      }
      RecordsStep(nodes, sorted, i, result, pushed.value);
      result := result + pushed.value;
    }
    assert sorted[..|sorted|] == sorted;
    return Ok(result);
  }

  /** A style that does not resolve makes the whole sequence fail. */
  lemma Unresolved(nodes: map<string, Node>, xs: seq<StyleMeta>, i: nat)
    requires i < |xs| && !Resolves(nodes, xs[i])
    ensures !AllResolve(nodes, xs)
  {
    assert xs[i] in xs;
  }

  // ---------------------------------------------------------------------------
  // Properties of the records

  /** Record `j` is the record of the `j`-th emitted style, built from its
      node: same type, normalised name, and the node's text properties,
      effects or paints. */
  lemma RecordAt(nodes: map<string, Node>, xs: seq<StyleMeta>, j: nat)
    requires AllResolve(nodes, xs)
    requires j < |Records(nodes, xs)|
    ensures var kept := Filter(Emitted(nodes), xs);
      && |Records(nodes, xs)| == |kept|
      && Emits(nodes, kept[j]) && kept[j] in xs && kept[j].nodeId in nodes
      && Records(nodes, xs)[j] == Record(kept[j], nodes[kept[j].nodeId])
      && TypeOf(Records(nodes, xs)[j]) == kept[j].styleType
      && NameOf(Records(nodes, xs)[j]) == CollapseSlashes(kept[j].name)
  {
    var kept := Filter(Emitted(nodes), xs);
    KeptResolve(nodes, xs);
    MapAt(RecordOf(nodes), kept, j);
  }

  /** Every emitted name has no space next to a slash. */
  lemma RecordNamesClean(nodes: map<string, Node>, xs: seq<StyleMeta>, j: nat)
    requires AllResolve(nodes, xs)
    requires j < |Records(nodes, xs)|
    ensures NoSpaceNextToSlash(NameOf(Records(nodes, xs)[j]))
  {
    RecordAt(nodes, xs, j);
    CollapseLeavesNoSpaceNextToSlash(Filter(Emitted(nodes), xs)[j].name);
  }

  /** Every fill record has a first paint, and it is solid: the records satisfy
      what the generator requires of fill styles. */
  lemma FillRecordsSolid(nodes: map<string, Node>, xs: seq<StyleMeta>, j: nat)
    requires AllResolve(nodes, xs)
    requires j < |Records(nodes, xs)| && Records(nodes, xs)[j].FillRecord?
    ensures |Records(nodes, xs)[j].fill.fills| > 0 && Records(nodes, xs)[j].fill.fills[0].kind == "SOLID"
  {
    var kept := Filter(Emitted(nodes), xs);
    KeptResolve(nodes, xs);
    MapAt(RecordOf(nodes), kept, j);
  }

  lemma FilteredFrom<T>(p: T -> bool, xs: seq<T>, y: T)
    requires y in Filter(p, xs)
    ensures y in xs && p(y)
  {
    FilterKeeps(p, xs);
  }

  /** Filtering a sorted sequence keeps it sorted. */
  lemma {:induction false} FilterSorted<T>(p: T -> bool, xs: seq<T>, key: T -> string, le: (string, string) -> bool)
    requires SortedBy(xs, key, le)
    ensures SortedBy(Filter(p, xs), key, le)
  {
    if xs != [] {
      var init := xs[..|xs| - 1];
      var last := xs[|xs| - 1];
      assert SortedBy(init, key, le) by {
        forall i, j | 0 <= i < j < |init| ensures le(key(init[i]), key(init[j])) {
          assert init[i] == xs[i] && init[j] == xs[j];
        }
      }
      FilterSorted(p, init, key, le);
      if p(last) {
        var ys := Filter(p, init);
        FilterKeeps(p, init);
        var r := ys + [last];
        assert Filter(p, xs) == r;
        forall i, j | 0 <= i < j < |r| ensures le(key(r[i]), key(r[j])) {
          if j == |ys| {
            assert r[i] == ys[i] && ys[i] in ys;
            FilteredFrom(p, init, ys[i]);
            var k :| 0 <= k < |init| && init[k] == ys[i];
            assert init[k] == xs[k] && r[j] == xs[|xs| - 1];
          } else {
            assert r[i] == ys[i] && r[j] == ys[j];
          }
        }
      } else {
        assert Filter(p, xs) == Filter(p, init) + [] == Filter(p, init);
      }
    }
  }

  /** With a comparator that is a total preorder, the styles behind the records
      are in ascending `sort_position` order. */
  lemma RecordsInSortOrder(styles: seq<StyleMeta>, nodes: map<string, Node>, localeLe: (string, string) -> bool)
    requires TotalPreorder(localeLe)
    ensures SortedBy(Filter(Emitted(nodes), SortBy(styles, SortPosition, localeLe)), SortPosition, localeLe)
  {
    SortBySorted(styles, SortPosition, localeLe);
    FilterSorted(Emitted(nodes), SortBy(styles, SortPosition, localeLe), SortPosition, localeLe);
  }

  /** How many records each input style yields: a text or effect style one
      per occurrence, a fill style one per occurrence exactly when its first
      paint is solid, any other style none. */
  lemma RecordCounts(styles: seq<StyleMeta>, nodes: map<string, Node>, localeLe: (string, string) -> bool, s: StyleMeta)
    requires AllResolve(nodes, styles)
    ensures var kept := Filter(Emitted(nodes), SortBy(styles, SortPosition, localeLe));
      && (s.styleType == "TEXT" || s.styleType == "EFFECT" ==> multiset(kept)[s] == multiset(styles)[s])
      && (s.styleType == "FILL" && s in styles ==>
            multiset(kept)[s] == if nodes[s.nodeId].fills[0].kind == "SOLID" then multiset(styles)[s] else 0)
      && (s.styleType != "TEXT" && s.styleType != "EFFECT" && s.styleType != "FILL" ==> multiset(kept)[s] == 0)
  {
    var sorted := SortBy(styles, SortPosition, localeLe);
    FilterSelects(Emitted(nodes), sorted);
    if s in styles {
      assert s in multiset(styles);
      assert Resolves(nodes, s);
    }
  }

  /** The sorted input resolves exactly when the input does. */
  lemma SortedResolves(styles: seq<StyleMeta>, nodes: map<string, Node>, localeLe: (string, string) -> bool)
    ensures AllResolve(nodes, SortBy(styles, SortPosition, localeLe)) <==> AllResolve(nodes, styles)
  {
    var sorted := SortBy(styles, SortPosition, localeLe);
    forall s ensures s in sorted <==> s in styles {
      assert s in sorted <==> s in multiset(sorted);
      assert s in styles <==> s in multiset(styles);
    }
  }
}
