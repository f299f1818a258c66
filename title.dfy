/**
 * The title layout of mdeck (`render/layouts/title.rs`): which blocks it draws as title and
 * subtitle.
 */
module Title {
  import opened Wrappers
  import opened Ast
  import opened Seqs

  predicate IsH1(b: Block) { b.Heading? && b.level == 1 }
  predicate IsH2(b: Block) { b.Heading? && b.level == 2 }
  predicate IsParagraph(b: Block) { b.Paragraph? }

  /** The blocks whose inlines the layout keeps while scanning the slide. */
  datatype Picks = Picks(title: Option<Block>, subtitle: Option<Block>)

  /**
   * One iteration: a level-1 heading overwrites the title, a level-2 heading overwrites the
   * subtitle, a paragraph fills the subtitle only while it is empty; deeper headings are ignored.
   */
  function Step(p: Picks, b: Block): Picks {
    match b
    case Heading(level, _) =>
      if level == 1 then p.(title := Some(b))
      else if level == 2 then p.(subtitle := Some(b))
      else p
    case Paragraph(_) => if p.subtitle.None? then p.(subtitle := Some(b)) else p
    case _ => p
  }

  /** The picks after the whole slide: the title is an H1, the subtitle an H2 or a paragraph. */
  function PicksOf(blocks: seq<Block>): (r: Picks)
    ensures r.title.Some? ==> IsH1(r.title.value)
    ensures r.subtitle.Some? ==> IsH2(r.subtitle.value) || r.subtitle.value.Paragraph?
  {
    if blocks == [] then Picks(None, None) else Step(PicksOf(blocks[..|blocks| - 1]), blocks[|blocks| - 1])
  }

  /** The selection loop of `render`. */
  method SelectBlocks(blocks: seq<Block>) returns (title: Option<Block>, subtitle: Option<Block>)
    ensures Picks(title, subtitle) == PicksOf(blocks)
  {
    title, subtitle := None, None;
    for k := 0 to |blocks|
      invariant Picks(title, subtitle) == PicksOf(blocks[..k])
    {
      assert blocks[..k + 1][..k] == blocks[..k];
      var block := blocks[k];
      match block {
        case Heading(level, _) =>
          if level == 1 {
            title := Some(block);
          } else if level == 2 {
            subtitle := Some(block);
          }
        case Paragraph(_) =>
          if subtitle.None? {
            subtitle := Some(block);
          }
        case _ =>
      }
    }
    assert blocks[..|blocks|] == blocks;
  }

  /**
   * The picks by position: the title is the last H1; the subtitle is the last H2 when there is
   * one, and otherwise the first paragraph.
   */
  predicate ByPosition(blocks: seq<Block>, p: Picks) {
    && p.title == LastOf(blocks, IsH1)
    && p.subtitle == if LastOf(blocks, IsH2).Some? then LastOf(blocks, IsH2) else FirstOf(blocks, IsParagraph)
  }

  lemma ByPositionSnoc(init: seq<Block>, b: Block)
    requires ByPosition(init, PicksOf(init))
    ensures ByPosition(init + [b], PicksOf(init + [b]))
  {
    LastOfSnoc(init, b, IsH1);
    LastOfSnoc(init, b, IsH2);
    FirstOfSnoc(init, b, IsParagraph);
    assert (init + [b])[..|init|] == init;
  }

  /** The loop's picks are the positional ones. */
  lemma {:induction false} PicksByPosition(blocks: seq<Block>)
    ensures ByPosition(blocks, PicksOf(blocks))
  {
    if blocks != [] {
      var init := blocks[..|blocks| - 1];
      var b := blocks[|blocks| - 1];
      PicksByPosition(init);
      ByPositionSnoc(init, b);
      assert init + [b] == blocks;
    }
  }

  /** An H2 anywhere on the slide wins over every paragraph, before or after it. */
  lemma SubtitleHeadingWins(blocks: seq<Block>, j: nat)
    requires j < |blocks| && IsH2(blocks[j])
    ensures PicksOf(blocks).subtitle.Some? && IsH2(PicksOf(blocks).subtitle.value)
  {
    PicksByPosition(blocks);
    LastIndexSpec(blocks, IsH2);
  }

  /** A slide with neither an H2 nor a paragraph has no subtitle, and one without an H1 no title. */
  lemma MissingParts(blocks: seq<Block>)
    ensures PicksOf(blocks).title.None? <==> forall j :: 0 <= j < |blocks| ==> !IsH1(blocks[j])
    ensures PicksOf(blocks).subtitle.None? <==>
      forall j :: 0 <= j < |blocks| ==> !IsH2(blocks[j]) && !blocks[j].Paragraph?
  {
    PicksByPosition(blocks);
    LastIndexSpec(blocks, IsH1);
    LastIndexSpec(blocks, IsH2);
    FirstIndexSpec(blocks, IsParagraph);
  }
}
