/**
 * The image-slide layout of mdeck (`render/layouts/image_slide.rs`): which blocks it picks as
 * heading, image and caption, and which of its three drawings it makes.
 */
module ImageSlide {
  import opened Wrappers
  import opened Ast
  import opened Seqs

  predicate IsHeading(b: Block) { b.Heading? }
  predicate IsImage(b: Block) { b.Image? }
  predicate IsParagraph(b: Block) { b.Paragraph? }

  /** The blocks the layout keeps while scanning the slide. */
  datatype Picks = Picks(heading: Option<Block>, image: Option<Block>, caption: Option<Block>)

  const NoPicks := Picks(None, None, None)

  /**
   * One iteration of the selection loop: a heading counts only while neither a heading nor an
   * image has been seen, an image only if none has, a paragraph only after an image and only once.
   */
  function Step(p: Picks, b: Block): Picks {
    if b.Heading? && p.heading.None? && p.image.None? then p.(heading := Some(b))
    else if b.Image? && p.image.None? then p.(image := Some(b))
    else if b.Paragraph? && p.image.Some? && p.caption.None? then p.(caption := Some(b))
    else p
  }

  /** The picks after the whole slide, each of the kind its name says, a caption only with an image. */
  function PicksOf(blocks: seq<Block>): (r: Picks)
    ensures r.heading.Some? ==> r.heading.value.Heading?
    ensures r.image.Some? ==> r.image.value.Image?
    ensures r.caption.Some? ==> r.caption.value.Paragraph? && r.image.Some?
  {
    if blocks == [] then NoPicks else Step(PicksOf(blocks[..|blocks| - 1]), blocks[|blocks| - 1])
  }

  /** The selection loop of `render`. */
  method SelectBlocks(blocks: seq<Block>) returns (heading: Option<Block>, imageBlock: Option<Block>, caption: Option<Block>)
    ensures Picks(heading, imageBlock, caption) == PicksOf(blocks)
  {
    heading, imageBlock, caption := None, None, None;
    for k := 0 to |blocks|
      invariant Picks(heading, imageBlock, caption) == PicksOf(blocks[..k])
    {
      assert blocks[..k + 1][..k] == blocks[..k];
      var block := blocks[k];
      match block {
        case Heading(_, _) =>
          if heading.None? && imageBlock.None? {
            heading := Some(block);
          }
        case Image(_, _, _) =>
          if imageBlock.None? {
            imageBlock := Some(block);
          }
        case Paragraph(_) =>
          if imageBlock.Some? && caption.None? {
            caption := Some(block);
          }
        case _ =>
      }
    }
    assert blocks[..|blocks|] == blocks;
  }

  /**
   * The picks by position: the image is the first `Image`, the heading the first `Heading` before
   * it (anywhere if there is no image), the caption the first `Paragraph` after it.
   */
  predicate ByPosition(blocks: seq<Block>, p: Picks) {
    match FirstIndex(blocks, IsImage)
    case None => p == Picks(FirstOf(blocks, IsHeading), None, None)
    case Some(i) =>
      p == Picks(FirstOf(blocks[..i], IsHeading), Some(blocks[i]), FirstOf(blocks[i + 1..], IsParagraph))
  }

  /** Appending to a slide that already has an image: only the caption can change. */
  lemma ByPositionAfterImage(init: seq<Block>, b: Block, i: nat)
    requires FirstIndex(init, IsImage) == Some(i)
    requires ByPosition(init, PicksOf(init))
    ensures ByPosition(init + [b], PicksOf(init + [b]))
  {
    var blocks := init + [b];
    FirstOfSnoc(init, b, IsImage);
    assert blocks[..i] == init[..i] by { PrefixSlice(init, [b], 0, i); }
    assert blocks[i + 1..] == init[i + 1..] + [b] by { SuffixSnoc(init, b, i + 1); }
    assert blocks[i] == init[i];
    FirstOfSnoc(init[i + 1..], b, IsParagraph);
    assert blocks[..|init|] == init;
  }

  /** Appending the first image: it is picked, with no caption yet. */
  lemma ByPositionAtImage(init: seq<Block>, b: Block)
    requires FirstIndex(init, IsImage).None? && b.Image?
    requires ByPosition(init, PicksOf(init))
    ensures ByPosition(init + [b], PicksOf(init + [b]))
  {
    var blocks := init + [b];
    FirstOfSnoc(init, b, IsImage);
    assert blocks[..|init|] == init;
    assert blocks[|init| + 1..] == [];
  }

  /** Appending to a slide without an image, a block that is not one: only the heading can change. */
  lemma ByPositionBeforeImage(init: seq<Block>, b: Block)
    requires FirstIndex(init, IsImage).None? && !b.Image?
    requires ByPosition(init, PicksOf(init))
    ensures ByPosition(init + [b], PicksOf(init + [b]))
  {
    FirstOfSnoc(init, b, IsImage);
    FirstOfSnoc(init, b, IsHeading);
    assert (init + [b])[..|init|] == init;
  }

  /** The loop's picks are the positional ones. */
  lemma {:induction false} PicksByPosition(blocks: seq<Block>)
    ensures ByPosition(blocks, PicksOf(blocks))
  {
    if blocks != [] {
      var init := blocks[..|blocks| - 1];
      var b := blocks[|blocks| - 1];
      PicksByPosition(init);
      assert init + [b] == blocks;
      match FirstIndex(init, IsImage)
      case Some(i) => ByPositionAfterImage(init, b, i);
      case None =>
        if b.Image? {
          ByPositionAtImage(init, b);
        } else {
          ByPositionBeforeImage(init, b);
        }
    }
  }

  /** The three ways `render` draws the slide. */
  datatype Plan =
    | Fallback
    | FullBleed(image: Block, heading: Option<Block>)
    | Framed(heading: Option<Block>, image: Block, caption: Option<Block>)

  /** Without an image it draws the blocks as a content slide; a `fill` image covers the slide and drops the caption. */
  function PlanOf(p: Picks): Plan {
    match p.image
    case None => Fallback
    case Some(img) =>
      if !img.Image? then Fallback
      else if img.directives.fill then FullBleed(img, p.heading)
      else Framed(p.heading, img, p.caption)
  }

  /** The drawing `render` makes for a slide, by position of its first image. */
  lemma PlanByPosition(blocks: seq<Block>)
    ensures match FirstIndex(blocks, IsImage)
      case None => PlanOf(PicksOf(blocks)) == Fallback
      case Some(i) =>
        var heading := FirstOf(blocks[..i], IsHeading);
        PlanOf(PicksOf(blocks)) ==
          if blocks[i].directives.fill then FullBleed(blocks[i], heading)
          else Framed(heading, blocks[i], FirstOf(blocks[i + 1..], IsParagraph))
  {
    PicksByPosition(blocks);
  }

  /** The slide falls back to the content layout exactly when it has no image block. */
  lemma FallbackIffNoImage(blocks: seq<Block>)
    ensures PlanOf(PicksOf(blocks)) == Fallback <==> forall j :: 0 <= j < |blocks| ==> !blocks[j].Image?
  {
    PicksByPosition(blocks);
    FirstIndexSpec(blocks, IsImage);
  }
}
