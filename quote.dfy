/**
 * The quote layout of presemd (`render/layouts/quote.rs`): which blocks it takes as heading, quote
 * and attribution, and how the attribution's leading dash is turned into an em dash.
 */
module Quote {
  import opened Wrappers
  import opened Ast
  import opened Strings
  import opened Seqs

  predicate IsHeading(b: Block) { b.Heading? }
  predicate IsQuote(b: Block) { b.BlockQuote? }
  predicate IsParagraph(b: Block) { b.Paragraph? }

  /** The blocks whose level and inlines the layout keeps while scanning the slide. */
  datatype Picks = Picks(heading: Option<Block>, quote: Option<Block>, attribution: Option<Block>)

  const NoPicks := Picks(None, None, None)

  /** One iteration: headings and quotes overwrite, a paragraph overwrites once a quote was seen. */
  function Step(p: Picks, b: Block): Picks {
    match b
    case Heading(_, _) => p.(heading := Some(b))
    case BlockQuote(_) => p.(quote := Some(b))
    case Paragraph(_) => if p.quote.Some? then p.(attribution := Some(b)) else p
    case _ => p
  }

  /** The picks after the whole slide, each of the kind its name says, an attribution only with a quote. */
  function PicksOf(blocks: seq<Block>): (r: Picks)
    ensures r.heading.Some? ==> r.heading.value.Heading?
    ensures r.quote.Some? ==> r.quote.value.BlockQuote?
    ensures r.attribution.Some? ==> r.attribution.value.Paragraph? && r.quote.Some?
  {
    if blocks == [] then NoPicks else Step(PicksOf(blocks[..|blocks| - 1]), blocks[|blocks| - 1])
  }

  /** The selection loop of `render`. */
  method SelectBlocks(blocks: seq<Block>) returns (heading: Option<Block>, quote: Option<Block>, attribution: Option<Block>)
    ensures Picks(heading, quote, attribution) == PicksOf(blocks)
  {
    heading, quote, attribution := None, None, None;
    for k := 0 to |blocks|
      invariant Picks(heading, quote, attribution) == PicksOf(blocks[..k])
    {
      assert blocks[..k + 1][..k] == blocks[..k];
      var block := blocks[k];
      match block {
        case Heading(_, _) => heading := Some(block);
        case BlockQuote(_) => quote := Some(block);
        case Paragraph(_) =>
          if quote.Some? {
            attribution := Some(block);
          }
        case _ =>
      }
    }
    assert blocks[..|blocks|] == blocks;
  }

  /**
   * The picks by position: the last heading of any level, the last quote, and the last paragraph
   * that comes after the first quote.
   */
  predicate ByPosition(blocks: seq<Block>, p: Picks) {
    && p.heading == LastOf(blocks, IsHeading)
    && p.quote == LastOf(blocks, IsQuote)
    && p.attribution == match FirstIndex(blocks, IsQuote)
      case None => None
      case Some(q) => LastOf(blocks[q + 1..], IsParagraph)
  }

  /** Appending to a slide that already has a quote. */
  lemma ByPositionAfterQuote(init: seq<Block>, b: Block, q: nat)
    requires FirstIndex(init, IsQuote) == Some(q)
    requires ByPosition(init, PicksOf(init))
    ensures ByPosition(init + [b], PicksOf(init + [b]))
  {
    LastPicksSnoc(init, b);
    FirstOfSnoc(init, b, IsQuote);
    AttributionSnoc(init, b, q);
  }

  /** The heading and the quote stay the last of their kind. */
  lemma LastPicksSnoc(init: seq<Block>, b: Block)
    requires PicksOf(init).heading == LastOf(init, IsHeading) && PicksOf(init).quote == LastOf(init, IsQuote)
    ensures PicksOf(init + [b]).heading == LastOf(init + [b], IsHeading)
    ensures PicksOf(init + [b]).quote == LastOf(init + [b], IsQuote)
  {
    PicksSnoc(init, b);
    LastOfSnoc(init, b, IsQuote);
    LastOfSnoc(init, b, IsHeading);
  }

  /** After a quote, the attribution stays the last paragraph that follows the first quote. */
  lemma AttributionSnoc(init: seq<Block>, b: Block, q: nat)
    requires FirstIndex(init, IsQuote) == Some(q)
    requires PicksOf(init).quote == LastOf(init, IsQuote)
    requires PicksOf(init).attribution == LastOf(init[q + 1..], IsParagraph)
    ensures PicksOf(init + [b]).attribution == LastOf((init + [b])[q + 1..], IsParagraph)
  {
    PicksSnoc(init, b);
    FirstLastAgree(init, IsQuote);
    SuffixSnoc(init, b, q + 1);
    LastOfSnoc(init[q + 1..], b, IsParagraph);
  }

  lemma PicksSnoc(init: seq<Block>, b: Block)
    ensures PicksOf(init + [b]) == Step(PicksOf(init), b)
  {
    assert (init + [b])[..|init|] == init;
  }

  /** Appending to a slide without a quote. */
  lemma ByPositionBeforeQuote(init: seq<Block>, b: Block)
    requires FirstIndex(init, IsQuote).None?
    requires ByPosition(init, PicksOf(init))
    ensures ByPosition(init + [b], PicksOf(init + [b]))
  {
    var blocks := init + [b];
    FirstLastAgree(init, IsQuote);
    FirstOfSnoc(init, b, IsQuote);
    LastOfSnoc(init, b, IsQuote);
    LastOfSnoc(init, b, IsHeading);
    assert blocks[..|init|] == init;
    assert blocks[|init| + 1..] == [];
  }

  /** The loop's picks are the positional ones. */
  lemma {:induction false} PicksByPosition(blocks: seq<Block>)
    ensures ByPosition(blocks, PicksOf(blocks))
  {
    if blocks != [] {
      var init := blocks[..|blocks| - 1];
      var b := blocks[|blocks| - 1];
      PicksByPosition(init);
      assert init + [b] == blocks;
      match FirstIndex(init, IsQuote)
      case Some(q) => ByPositionAfterQuote(init, b, q);
      case None => ByPositionBeforeQuote(init, b);
    }
  }

  /** A paragraph before every quote is never the attribution. */
  lemma EarlyParagraphIgnored(blocks: seq<Block>, j: nat)
    requires j < |blocks| && blocks[j].Paragraph?
    requires forall k :: 0 <= k < j ==> !blocks[k].BlockQuote?
    ensures PicksOf(blocks).attribution != Some(blocks[j]) || exists k :: j < k < |blocks| && blocks[k] == blocks[j]
  {
    PicksByPosition(blocks);
    FirstIndexSpec(blocks, IsQuote);
    match FirstIndex(blocks, IsQuote)
    case None =>
    case Some(q) =>
      assert q > j;
      var tail := blocks[q + 1..];
      if PicksOf(blocks).attribution == Some(blocks[j]) {
        var t := LastIndex(tail, IsParagraph).value;
        assert tail[t] == blocks[q + 1 + t];
      }
  }

  // ---------------------------------------------------------------------------------------
  // `clean_attribution`
  // ---------------------------------------------------------------------------------------

  /** What a leading `---` or `--` becomes: an em dash and a space. */
  const EmDashSpace: string := "\U{2014} "

  /**
   * `clean_attribution`: if the first inline is text whose trimmed start is `---` or `--` (checked
   * in that order), that text becomes an em dash, a space, and the rest without leading whitespace.
   * Nothing else changes.
   */
  function CleanAttribution(inlines: seq<Inline>): (r: seq<Inline>)
    ensures |r| == |inlines|
    ensures forall j :: 1 <= j < |r| ==> r[j] == inlines[j]
    ensures (inlines == [] || !inlines[0].Text?) ==> r == inlines
  {
    if inlines != [] && inlines[0].Text? then
      var trimmed := TrimStart(inlines[0].s);
      match StripPrefix(trimmed, "---")
      case Some(rest) => inlines[0 := Text(EmDashSpace + TrimStart(rest))]
      case None =>
        match StripPrefix(trimmed, "--")
        case Some(rest) => inlines[0 := Text(EmDashSpace + TrimStart(rest))]
        case None => inlines
    else inlines
  }

  /** The attribution starts with a dash once leading whitespace is skipped. */
  predicate DashLed(inlines: seq<Inline>) {
    inlines != [] && inlines[0].Text? && StartsWith(TrimStart(inlines[0].s), "--")
  }

  /** The inlines change exactly when they are dash-led; otherwise even leading spaces stay. */
  lemma CleanChangesIffDashLed(inlines: seq<Inline>)
    ensures CleanAttribution(inlines) != inlines <==> DashLed(inlines)
  {
    if DashLed(inlines) {
      var s := inlines[0].s;
      TrimStartShape(s);
      var n := |s| - |TrimStart(s)|;
      assert s[n] == TrimStart(s)[0] == '-';
      assert !IsWhitespace(s[n]);
      assert CleanAttribution(inlines)[0].s[0] == '\U{2014}';
      if n > 0 {
        assert s[..n][0] == s[0];
      }
    }
  }

  /**
   * Leading whitespace, two or three dashes and whitespace before a name that does not itself
   * start with a dash all collapse to an em dash, one space and the name.
   */
  lemma DashesBecomeEmDash(lead: string, dashes: string, gap: string, name: string, rest: seq<Inline>)
    requires AllWhitespace(lead) && AllWhitespace(gap)
    requires dashes == "--" || dashes == "---"
    requires name == [] || (!IsWhitespace(name[0]) && name[0] != '-')
    ensures CleanAttribution([Text(lead + dashes + gap + name)] + rest) == [Text(EmDashSpace + name)] + rest
  {
    var body := dashes + gap + name;
    assert lead + dashes + gap + name == lead + body;
    TrimStartSkipsWhitespace(lead, body);
    TrimStartNoLeading(body);
    if dashes == "--" {
      StripTwoDashes(gap, name);
    } else {
      StripThreeDashes(gap, name);
    }
    TrimStartSkipsWhitespace(gap, name);
    TrimStartNoLeading(name);
  }

  /** `--` before a gap and a name that is not a dash: only the two-dash test matches. */
  lemma StripTwoDashes(gap: string, name: string)
    requires AllWhitespace(gap)
    requires name == [] || (!IsWhitespace(name[0]) && name[0] != '-')
    ensures StripPrefix("--" + gap + name, "---").None?
    ensures StripPrefix("--" + gap + name, "--") == Some(gap + name)
  {
    var t := "--" + gap + name;
    if |t| >= 3 {
      if gap != [] {
        assert t[2] == gap[0];
      } else {
        assert t[2] == name[0];
      }
    }
    assert t[2..] == gap + name;
  }

  /** `---` before a gap and a name is stripped whole. */
  lemma StripThreeDashes(gap: string, name: string)
    ensures StripPrefix("---" + gap + name, "---") == Some(gap + name)
  {
    assert ("---" + gap + name)[3..] == gap + name;
  }

  /** Cleaning twice is cleaning once: the em dash is not a dash the second pass strips. */
  lemma CleanIdempotent(inlines: seq<Inline>)
    ensures CleanAttribution(CleanAttribution(inlines)) == CleanAttribution(inlines)
  {
    var r := CleanAttribution(inlines);
    if r != inlines {
      CleanChangesIffDashLed(inlines);
      var t := r[0].s;
      assert t[0] == '\U{2014}';
      TrimStartNoLeading(t);
      assert !DashLed(r);
      CleanChangesIffDashLed(r);
    } else {
      assert CleanAttribution(r) == r;
    }
  }

  lemma CleanExamples()
    ensures CleanAttribution([Text("-- Ada")]) == [Text("\U{2014} Ada")]
    ensures CleanAttribution([Text("---Ada"), Code("x")]) == [Text("\U{2014} Ada"), Code("x")]
    ensures CleanAttribution([Text("  Ada")]) == [Text("  Ada")]
    ensures CleanAttribution([Bold([Text("-- Ada")])]) == [Bold([Text("-- Ada")])]
  {
    CleanExampleTwoDashes();
    CleanExampleThreeDashes();
    CleanChangesIffDashLed([Text("  Ada")]);
  }

  lemma CleanExampleTwoDashes()
    ensures CleanAttribution([Text("-- Ada")]) == [Text("\U{2014} Ada")]
  {
    assert "" + "--" + " " + "Ada" == "-- Ada";
    DashesBecomeEmDash("", "--", " ", "Ada", []);
    assert EmDashSpace + "Ada" == "\U{2014} Ada";
    assert [Text(EmDashSpace + "Ada")] + [] == [Text("\U{2014} Ada")];
  }

  lemma CleanExampleThreeDashes()
    ensures CleanAttribution([Text("---Ada"), Code("x")]) == [Text("\U{2014} Ada"), Code("x")]
  {
    assert "" + "---" + "" + "Ada" == "---Ada";
    DashesBecomeEmDash("", "---", "", "Ada", [Code("x")]);
    assert EmDashSpace + "Ada" == "\U{2014} Ada";
    assert [Text(EmDashSpace + "Ada")] + [Code("x")] == [Text("\U{2014} Ada"), Code("x")];
  }
}
