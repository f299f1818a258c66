/**
 * Paragraphs and the block parser's dispatch loop (`parse_paragraph`, `parse`).
 *
 * `parse` moves an index over the lines and hands each non-blank line to the first block
 * parser whose opening test it passes. Every block parser but two moves the index forward:
 * the ordered-list parser and the paragraph parser can return the index they were given, and
 * then `parse` repeats the same step forever. `is_list_start` panics on a line of one
 * non-ASCII character, and `parse` calls it from the dispatch, the paragraph's stop test and the
 * list's look-ahead. `ParseFrom` therefore yields the blocks, the index of the line where the
 * scan stalls, or the index of the step that panics; `StallLine` says exactly which lines stall
 * it. The steps themselves (`StepAt`) use the corrected `is_list_start`, which agrees with the
 * written one wherever that one does not panic.
 */
module BlockParse {
  import opened Wrappers
  import opened Strings
  import opened Ast
  import InlineParser
  import BlockLines
  import BlockCode
  import BlockImage
  import BlockText
  import BlockList

  // ---------------------------------------------------------------------------------------
  // Paragraphs
  // ---------------------------------------------------------------------------------------

  /** The tests of `parse_paragraph`'s stop condition that come before `is_list_start`. */
  predicate StopsBeforeList(t: string) {
    t == [] || StartsWith(t, "#") || StartsWith(t, "```") || StartsWith(t, "~~~")
    || StartsWith(t, "![") || StartsWith(t, "> ") || t == ">" || t == "+++"
    || BlockLines.IsHorizontalRule(t) || (StartsWith(t, "|") && EndsWith(t, "|"))
  }

  /** A trimmed line that ends a paragraph: a blank line or one that opens another block. */
  predicate StopsParagraph(t: string) {
    StopsBeforeList(t) || BlockList.IsListStart(t) || BlockList.IsOrderedListStart(t)
  }

  /**
   * A trimmed line on which `is_list_start` panics passes none of the tests before it, in the
   * dispatch or in the stop condition, so both reach `is_list_start` there.
   */
  lemma PanicLineReaches(t: string)
    requires BlockList.PanicLine(t) && !IsWhitespace(t[0])
    ensures !StopsParagraph(t) && KindOf(t) == ParagraphLine
  {
    BlockList.ListStartPanicsExactly(t);
    LeadingChar(t);
    if StartsWith(t, "#") { FirstOf(t, "#"); }
    if StartsWith(t, "![") { FirstOf(t, "!["); }
    if StartsWith(t, "|") { FirstOf(t, "|"); }
    if BlockLines.HeadingBlock(t).Some? { BlockLines.HeadingIff(t); }
  }

  /**
   * `parse_paragraph` from `i` as written panics: a line it reaches before the line that stops
   * it is one on which `is_list_start` panics.
   */
  predicate ParagraphPanics(lines: seq<string>, i: nat)
    requires i <= |lines|
  {
    exists k :: i <= k < ParagraphEnd(lines, i) && BlockList.PanicLine(Trim(lines[k]))
  }

  /** The first line at or after `i` that ends a paragraph. */
  function ParagraphEnd(lines: seq<string>, i: nat): (r: nat)
    requires i <= |lines|
    ensures i <= r <= |lines|
    decreases |lines| - i
  {
    if i == |lines| || StopsParagraph(Trim(lines[i])) then i else ParagraphEnd(lines, i + 1)
  }

  /** `parse_paragraph` as a function: the trimmed lines up to the next stop, joined by spaces. */
  function ParagraphAt(lines: seq<string>, start: nat): (Block, nat)
    requires start <= |lines|
  {
    var e := ParagraphEnd(lines, start);
    (Paragraph(InlineParser.Parsed(BlockText.Spaced(BlockText.TrimmedLines(lines, start, e)))), e)
  }

  /** The paragraph end seen from line `i`: here at a stop line, otherwise from the next line. */
  lemma ParagraphEndNext(lines: seq<string>, i: nat)
    requires i < |lines|
    ensures ParagraphEnd(lines, i) == if StopsParagraph(Trim(lines[i])) then i else ParagraphEnd(lines, i + 1)
  {
  }

  /** A paragraph takes every line up to the first stop line, and stops there. */
  lemma ParagraphSpan(lines: seq<string>, i: nat)
    requires i <= |lines|
    ensures forall k :: i <= k < ParagraphEnd(lines, i) ==> !StopsParagraph(Trim(lines[k]))
    ensures ParagraphEnd(lines, i) == |lines| || StopsParagraph(Trim(lines[ParagraphEnd(lines, i)]))
  {
    forall k | i <= k < ParagraphEnd(lines, i)
      ensures !StopsParagraph(Trim(lines[k]))
    {
      ParagraphTakes(lines, i, k);
    }
    ParagraphEndStops(lines, i);
  }

  /** Every line before the paragraph's end continues it. */
  lemma {:induction false} ParagraphTakes(lines: seq<string>, i: nat, k: nat)
    requires i <= |lines| && i <= k < ParagraphEnd(lines, i)
    ensures !StopsParagraph(Trim(lines[k]))
    decreases k - i
  {
    if i < k {
      ParagraphTakes(lines, i + 1, k);
    }
  }

  /** The paragraph ends at the end of the text or at a stop line. */
  lemma {:induction false} ParagraphEndStops(lines: seq<string>, i: nat)
    requires i <= |lines|
    ensures ParagraphEnd(lines, i) == |lines| || StopsParagraph(Trim(lines[ParagraphEnd(lines, i)]))
    decreases |lines| - i
  {
    if i < |lines| && !StopsParagraph(Trim(lines[i])) {
      ParagraphEndStops(lines, i + 1);
    }
  }

  /** A paragraph's text is its lines, trimmed, joined with single spaces. */
  lemma ParagraphText(lines: seq<string>, i: nat)
    requires i <= |lines|
    ensures var tl := BlockText.TrimmedLines(lines, i, ParagraphEnd(lines, i));
      BlockText.Spaced(tl) == Join(tl, " ")
  {
    ParagraphSpan(lines, i);
    var tl := BlockText.TrimmedLines(lines, i, ParagraphEnd(lines, i));
    forall k | 0 <= k < |tl|
      ensures tl[k] != []
    {
      assert !StopsParagraph(Trim(lines[i + k]));
    }
    BlockText.SpacedNonEmpty(tl);
  }

  /**
   * `parse_paragraph`: joins trimmed lines with spaces until a stop line. As written
   * (`corrected` false) no line before the stop may make `is_list_start` panic.
   */
  method ParseParagraph(lines: seq<string>, start: nat, corrected: bool) returns (block: Block, end: nat)
    requires start <= |lines|
    requires corrected || !ParagraphPanics(lines, start)
    ensures block == ParagraphAt(lines, start).0
    ensures end == ParagraphAt(lines, start).1
  {
    var text: string := [];
    var i := start;
    assert BlockText.TrimmedLines(lines, start, start) == [];
    ghost var paragraphEnd := ParagraphEnd(lines, start);
    while i < |lines|
      invariant start <= i <= |lines|
      invariant paragraphEnd == ParagraphEnd(lines, i)
      invariant text == BlockText.Spaced(BlockText.TrimmedLines(lines, start, i))
    {
      var trimmed := Trim(lines[i]);
      ParagraphEndNext(lines, i);
      var stop := StopsBeforeList(trimmed);
      if !stop {
        StopTestSafe(lines, start, i, corrected);
        var listStart := BlockList.ListStart(trimmed, corrected);
        stop := listStart || BlockList.IsOrderedListStart(trimmed);
      }
      if stop {
        break;
      }
      BlockText.SpacedSnoc(lines, start, i);
      if text != [] {
        text := text + " ";
      }
      text := text + trimmed;
      i := i + 1;
    }
    var inlines := InlineParser.Parse(text);
    block := Paragraph(inlines);
    end := i;
  }

  /** Every line a paragraph's stop test reaches is safe for `is_list_start` unless the paragraph panics. */
  lemma StopTestSafe(lines: seq<string>, start: nat, i: nat, corrected: bool)
    requires start <= i < |lines| && ParagraphEnd(lines, start) == ParagraphEnd(lines, i)
    requires corrected || !ParagraphPanics(lines, start)
    ensures corrected || !BlockList.PanicLine(Trim(lines[i]))
  {
    ParagraphEndNext(lines, i);
    if !corrected && BlockList.PanicLine(Trim(lines[i])) {
      TrimEdges(lines[i]);
      PanicLineReaches(Trim(lines[i]));
    }
  }

  // ---------------------------------------------------------------------------------------
  // The dispatch
  // ---------------------------------------------------------------------------------------

  /** One turn of the loop of `parse`: the block it pushes, if any, and the next index. */
  datatype Step = Step(block: Option<Block>, next: nat)

  /** The test of `parse` that a trimmed line passes first. */
  datatype Kind = Blank | Separator | Rule | HeadingLine | Fence | ImageLine | QuoteLine
    | TableLine | Bullet | OrderedItem | ParagraphLine

  /**
   * The tests of `parse`, in the order it makes them, with the corrected `is_list_start`:
   * where the written one panics, `StepPanics` holds.
   */
  function KindOf(t: string): Kind {
    if t == [] then Blank
    else if t == "+++" then Separator
    else if BlockLines.IsHorizontalRule(t) then Rule
    else if BlockLines.HeadingBlock(t).Some? then HeadingLine
    else if StartsWith(t, "```") || StartsWith(t, "~~~") then Fence
    else if StartsWith(t, "![") && BlockImage.ImageAt(t).Some? then ImageLine
    else if StartsWith(t, "> ") || t == ">" then QuoteLine
    else if StartsWith(t, "|") && EndsWith(t, "|") then TableLine
    else if BlockList.IsListStart(t) then Bullet
    else if BlockList.IsOrderedListStart(t) then OrderedItem
    else ParagraphLine
  }

  /** The branch of `parse` taken at line `i`: the block it pushes and where it goes on. */
  function StepAt(lines: seq<string>, i: nat): (r: Step)
    requires i < |lines|
    ensures i <= r.next <= |lines|
  {
    var t := Trim(lines[i]);
    match KindOf(t)
    case Blank => Step(None, i + 1)
    case Separator => Step(Some(ColumnSeparator), i + 1)
    case Rule => Step(Some(HorizontalRule), i + 1)
    case HeadingLine => Step(BlockLines.HeadingBlock(t), i + 1)
    case Fence =>
      var r := BlockCode.CodeBlockAt(lines, i, if StartsWith(t, "```") then '`' else '~');
      Step(Some(r.0), r.1)
    case ImageLine => Step(BlockImage.ImageAt(t), i + 1)
    case QuoteLine =>
      var r := BlockText.QuoteAt(lines, i);
      Step(Some(r.0), r.1)
    case TableLine =>
      var r := BlockText.TableAt(lines, i);
      Step(r.0, r.1)
    case Bullet =>
      var r := BlockList.ListAt(lines, i, false);
      Step(Some(r.0), r.1)
    case OrderedItem =>
      var r := BlockList.ListAt(lines, i, true);
      Step(Some(r.0), r.1)
    case ParagraphLine =>
      var r := ParagraphAt(lines, i);
      Step(Some(r.0), r.1)
  }

  /**
   * The turn of `parse` at line `i` panics in `is_list_start`: at the dispatch's list test, in
   * the paragraph it starts or in the look-ahead of the list it starts.
   */
  predicate StepPanics(lines: seq<string>, i: nat)
    requires i < |lines|
  {
    var t := Trim(lines[i]);
    BlockList.PanicLine(t) ||
    match KindOf(t)
    case Bullet => BlockList.ListPanics(lines, i, false)
    case OrderedItem => BlockList.ListPanics(lines, i, true)
    case ParagraphLine => ParagraphPanics(lines, i)
    case _ => false
  }

  /**
   * What the loop of `parse` does from line `i`: the blocks, the line where it stalls, or the
   * line whose turn panics.
   */
  datatype Outcome = Done(blocks: seq<Block>) | Stalled(at: nat) | Panicked(at: nat)

  function ParseFrom(lines: seq<string>, i: nat): (r: Outcome)
    requires i <= |lines|
    decreases |lines| - i
  {
    if i == |lines| then Done([])
    else if StepPanics(lines, i) then Panicked(i)
    else
      var s := StepAt(lines, i);
      if s.next == i then Stalled(i)
      else match ParseFrom(lines, s.next)
        case Done(rest) => Done(Pushed(s.block) + rest)
        case other => other
  }

  /** The blocks a step pushes. */
  function Pushed(block: Option<Block>): seq<Block> {
    if block.Some? then [block.value] else []
  }

  /** A run that reaches the end moves past every line it starts at, collecting the step's block. */
  lemma ParseFromStep(lines: seq<string>, i: nat)
    requires i < |lines| && ParseFrom(lines, i).Done?
    ensures !StepPanics(lines, i)
    ensures StepAt(lines, i).next > i
    ensures ParseFrom(lines, StepAt(lines, i).next).Done?
    ensures ParseFrom(lines, i).blocks ==
      Pushed(StepAt(lines, i).block) + ParseFrom(lines, StepAt(lines, i).next).blocks
  {
  }

  /** One turn of the loop of `parse`: the blocks so far, then the step's block, then the rest. */
  lemma ParseAccStep(lines: seq<string>, i: nat, acc: seq<Block>, block: Option<Block>, next: nat)
    requires i < |lines| && ParseFrom(lines, i).Done?
    requires block == StepAt(lines, i).block && next == StepAt(lines, i).next
    ensures i < next <= |lines| && ParseFrom(lines, next).Done?
    ensures acc + ParseFrom(lines, i).blocks == (acc + Pushed(block)) + ParseFrom(lines, next).blocks
  {
    ParseFromStep(lines, i);
    var rest := ParseFrom(lines, next).blocks;
    assert acc + (Pushed(block) + rest) == (acc + Pushed(block)) + rest;
  }

  /** `parse` on a slide's content. */
  function ParseOutcome(content: string): Outcome {
    ParseFrom(Lines(content), 0)
  }

  // ---------------------------------------------------------------------------------------
  // Which lines stall the loop
  // ---------------------------------------------------------------------------------------

  /**
   * A trimmed line on which `parse` makes no progress: a `#` line that is not a heading, a
   * `![` line that is not an image, or an ordered list start whose digits are followed by
   * whitespace before the `. `.
   */
  predicate StallLine(t: string) {
    (StartsWith(t, "#") && BlockLines.HeadingBlock(t).None?)
    || (StartsWith(t, "![") && BlockImage.ImageAt(t).None?)
    || (BlockList.IsOrderedListStart(t) && BlockList.ExtractOrdered(t).None?)
  }

  /** The first character of a trimmed line decides the tests that look at it. */
  lemma LeadingChar(t: string)
    requires t != [] && !IsWhitespace(t[0])
    ensures BlockLines.IsHorizontalRule(t) ==> t[0] == '*' || t[0] == '_'
    ensures BlockList.IsOrderedListStart(t) ==> IsAsciiDigit(t[0])
  {
    assert BlockLines.NonWhitespace(t)[0] == t[0] by {
      assert BlockLines.NonWhitespace(t) == [t[0]] + BlockLines.NonWhitespace(t[1..]);
    }
    if BlockList.IsOrderedListStart(t) {
      var d := Find(t, ". ").value;
      var p := t[..d];
      TrimStartShape(p);
      TrimEndShape(TrimStart(p));
      assert TrimStart(p) == p;
      assert Trim(p) != [] && Trim(p)[0] == t[0];
      AllDigitsIff(Trim(p));
    }
  }

  /** A prefix test decides the first character. */
  lemma FirstOf(t: string, p: string)
    requires p != [] && StartsWith(t, p)
    ensures t != [] && t[0] == p[0]
  {
    assert t[0] == t[..|p|][0];
  }

  /** A `#` line that is not a heading reaches the paragraph test. */
  lemma HashKind(t: string)
    requires t != [] && !IsWhitespace(t[0]) && t[0] == '#' && BlockLines.HeadingBlock(t).None?
    ensures KindOf(t) == ParagraphLine
  {
    LeadingChar(t);
    if StartsWith(t, "```") { FirstOf(t, "```"); }
    if StartsWith(t, "~~~") { FirstOf(t, "~~~"); }
    if StartsWith(t, "![") { FirstOf(t, "!["); }
    if StartsWith(t, "> ") { FirstOf(t, "> "); }
    if StartsWith(t, "|") { FirstOf(t, "|"); }
  }

  /** A `![` line that is not an image reaches the paragraph test. */
  lemma BangKind(t: string)
    requires t != [] && !IsWhitespace(t[0]) && StartsWith(t, "![") && BlockImage.ImageAt(t).None?
    ensures KindOf(t) == ParagraphLine
  {
    LeadingChar(t);
    FirstOf(t, "![");
    if BlockLines.HeadingBlock(t).Some? { FirstOf(t, "#"); }
    if StartsWith(t, "```") { FirstOf(t, "```"); }
    if StartsWith(t, "~~~") { FirstOf(t, "~~~"); }
    if StartsWith(t, "> ") { FirstOf(t, "> "); }
    if StartsWith(t, "|") { FirstOf(t, "|"); }
  }

  /** An ordered list start reaches the ordered-list test. */
  lemma OrderedKind(t: string)
    requires t != [] && !IsWhitespace(t[0]) && BlockList.IsOrderedListStart(t)
    ensures KindOf(t) == OrderedItem
  {
    LeadingChar(t);
    if BlockLines.HeadingBlock(t).Some? { FirstOf(t, "#"); }
    if StartsWith(t, "```") { FirstOf(t, "```"); }
    if StartsWith(t, "~~~") { FirstOf(t, "~~~"); }
    if StartsWith(t, "![") { FirstOf(t, "!["); }
    if StartsWith(t, "> ") { FirstOf(t, "> "); }
    if StartsWith(t, "|") { FirstOf(t, "|"); }
  }

  /** The only paragraph stops a paragraph line can meet are `#` and `![`. */
  lemma ParagraphStops(t: string)
    requires KindOf(t) == ParagraphLine && StopsParagraph(t)
    ensures StartsWith(t, "#") || StartsWith(t, "![")
  {
  }

  /** A stall line is a paragraph line that a paragraph would not take, or an unreadable ordered item. */
  lemma StallKinds(t: string)
    requires t == [] || !IsWhitespace(t[0])
    ensures StallLine(t) <==>
      (KindOf(t) == ParagraphLine && StopsParagraph(t)) ||
      (KindOf(t) == OrderedItem && BlockList.ExtractOrdered(t).None?)
  {
    if StartsWith(t, "#") && BlockLines.HeadingBlock(t).None? {
      FirstOf(t, "#");
      HashKind(t);
    }
    if StartsWith(t, "![") && BlockImage.ImageAt(t).None? {
      FirstOf(t, "![");
      BangKind(t);
    }
    if BlockList.IsOrderedListStart(t) {
      OrderedKind(t);
    }
    if KindOf(t) == ParagraphLine && StopsParagraph(t) {
      ParagraphStops(t);
    }
  }

  /** The step at `i` stays put exactly on a paragraph line that stops at once, or an unreadable ordered item. */
  lemma StepStays(lines: seq<string>, i: nat)
    requires i < |lines|
    ensures var t := Trim(lines[i]);
      StepAt(lines, i).next == i <==>
        (KindOf(t) == ParagraphLine && StopsParagraph(t)) ||
        (KindOf(t) == OrderedItem && BlockList.ExtractOrdered(t).None?)
  {
    var t := Trim(lines[i]);
    match KindOf(t)
    case QuoteLine =>
    case TableLine => BlockText.TableAdvances(lines, i);
    case Bullet => BlockList.UnorderedMarkers(t);
    case OrderedItem => OrderedStep(lines, i);
    case _ =>
  }

  /** The line at `i` stalls the loop exactly when it is a stall line. */
  lemma StepStallsIff(lines: seq<string>, i: nat)
    requires i < |lines|
    ensures StepAt(lines, i).next == i <==> StallLine(Trim(lines[i]))
  {
    TrimEdges(lines[i]);
    StallKinds(Trim(lines[i]));
    StepStays(lines, i);
  }

  /** An ordered list start moves the index exactly when its line is an ordered item. */
  lemma OrderedStep(lines: seq<string>, i: nat)
    requires i < |lines|
    requires var t := Trim(lines[i]); t != [] && BlockList.IsOrderedListStart(t) && !BlockList.IsListStart(t)
    ensures var t := Trim(lines[i]);
      BlockList.ListAt(lines, i, true).1 == i <==> BlockList.ExtractOrdered(t).None?
  {
    var t := Trim(lines[i]);
    BlockList.UnorderedMarkers(t);
  }

  /** `parse` runs to the end exactly when no line it reaches is a stall line. */
  lemma {:induction false} ParseFromStalls(lines: seq<string>, i: nat)
    requires i <= |lines|
    ensures ParseFrom(lines, i).Stalled? ==>
      var k := ParseFrom(lines, i).at; i <= k < |lines| && StallLine(Trim(lines[k]))
    decreases |lines| - i
  {
    if i < |lines| {
      StepStallsIff(lines, i);
      var s := StepAt(lines, i);
      if s.next != i {
        ParseFromStalls(lines, s.next);
      }
    }
  }

  /** When a turn panics, it is on or before a line on which `is_list_start` panics. */
  lemma {:induction false} ParseFromPanics(lines: seq<string>, i: nat)
    requires i <= |lines|
    ensures ParseFrom(lines, i).Panicked? ==>
      var k := ParseFrom(lines, i).at;
      i <= k < |lines| && StepPanics(lines, k) &&
      exists m :: k <= m < |lines| && BlockList.PanicLine(Trim(lines[m]))
    decreases |lines| - i
  {
    if i < |lines| {
      if StepPanics(lines, i) {
        StepPanicsLine(lines, i);
      } else {
        var s := StepAt(lines, i);
        if s.next != i {
          ParseFromPanics(lines, s.next);
        }
      }
    }
  }

  /** A panicking turn meets a line on which `is_list_start` panics. */
  lemma StepPanicsLine(lines: seq<string>, i: nat)
    requires i < |lines| && StepPanics(lines, i)
    ensures exists m :: i <= m < |lines| && BlockList.PanicLine(Trim(lines[m]))
  {
    var t := Trim(lines[i]);
    if !BlockList.PanicLine(t) {
      match KindOf(t)
      case Bullet => BlockList.ListPanicsLine(lines, i, false);
      case OrderedItem => BlockList.ListPanicsLine(lines, i, true);
      case ParagraphLine =>
    }
  }

  /**
   * A slide with no stall line and no line on which `is_list_start` panics is parsed to the
   * end.
   */
  lemma NoStallLineDone(content: string)
    requires forall k :: 0 <= k < |Lines(content)| ==> !StallLine(Trim(Lines(content)[k]))
    requires forall k :: 0 <= k < |Lines(content)| ==> !BlockList.PanicLine(Trim(Lines(content)[k]))
    ensures ParseOutcome(content).Done?
  {
    ParseFromStalls(Lines(content), 0);
    ParseFromPanics(Lines(content), 0);
  }

  /** The slide `é` panics on its first line: the dispatch reaches `is_list_start` there. */
  lemma AccentPanics()
    ensures ParseOutcome("é") == Panicked(0)
  {
    var t := "é";
    assert Lines(t) == [t] by {
      assert FindChar(t, '\n').None?;
    }
    TrimOfTrimmed(t);
    BlockList.ListStartPanicExample();
  }

  /** `#tag` stalls the loop: it is not a heading, and a paragraph stops on its `#`. */
  lemma HashTagStalls()
    ensures ParseOutcome("#tag") == Stalled(0)
  {
    var t := "#tag";
    assert Lines(t) == [t] by {
      assert FindChar(t, '\n').None?;
    }
    TrimOfTrimmed(t);
    assert t[..1] == "#";
    assert RunLength(t, '#') == 1 by {
      assert t[1..][0] == 't';
    }
    assert BlockLines.HeadingAt(t).None? by {
      assert t[1..][..1] == "t";
    }
    StepStallsIff([t], 0);
  }

  // ---------------------------------------------------------------------------------------
  // The implementation's loop
  // ---------------------------------------------------------------------------------------

  /** The body of the loop of `parse`: the tests in order, each handing over to its block parser. */
  method Dispatch(lines: seq<string>, i: nat, corrected: bool) returns (block: Option<Block>, next: nat)
    requires i < |lines|
    requires corrected || !StepPanics(lines, i)
    ensures block == StepAt(lines, i).block
    ensures next == StepAt(lines, i).next
  {
    var trimmed := Trim(lines[i]);
    if trimmed == [] {
      assert KindOf(trimmed) == Blank;
      return None, i + 1;
    }
    if trimmed == "+++" {
      assert KindOf(trimmed) == Separator;
      return Some(ColumnSeparator), i + 1;
    }
    if BlockLines.IsHorizontalRule(trimmed) {
      assert KindOf(trimmed) == Rule;
      return Some(HorizontalRule), i + 1;
    }
    var heading := BlockLines.ParseHeading(trimmed);
    if heading.Some? {
      assert KindOf(trimmed) == HeadingLine;
      return heading, i + 1;
    }
    if StartsWith(trimmed, "```") || StartsWith(trimmed, "~~~") {
      assert KindOf(trimmed) == Fence;
      var fence := if StartsWith(trimmed, "```") then '`' else '~';
      var b, end := BlockCode.ParseCodeBlock(lines, i, fence);
      return Some(b), end;
    }
    if StartsWith(trimmed, "![") {
      var img := BlockImage.ParseImage(trimmed);
      if img.Some? {
        assert KindOf(trimmed) == ImageLine;
        return img, i + 1;
      }
    }
    assert KindOf(trimmed) in {QuoteLine, TableLine, Bullet, OrderedItem, ParagraphLine};
    block, next := DispatchRest(lines, i, corrected);
  }

  /** The tests of `parse` from the blockquote test on. */
  method DispatchRest(lines: seq<string>, i: nat, corrected: bool) returns (block: Option<Block>, next: nat)
    requires i < |lines|
    requires corrected || !StepPanics(lines, i)
    requires KindOf(Trim(lines[i])) in {QuoteLine, TableLine, Bullet, OrderedItem, ParagraphLine}
    ensures block == StepAt(lines, i).block
    ensures next == StepAt(lines, i).next
  {
    var trimmed := Trim(lines[i]);
    if StartsWith(trimmed, "> ") || trimmed == ">" {
      assert KindOf(trimmed) == QuoteLine;
      StepAtQuote(lines, i);
      var b, end := BlockText.ParseBlockquote(lines, i);
      return Some(b), end;
    }
    assert KindOf(trimmed) in {TableLine, Bullet, OrderedItem, ParagraphLine};
    block, next := DispatchTable(lines, i, corrected);
  }

  /** The tests of `parse` from the table test on. */
  method DispatchTable(lines: seq<string>, i: nat, corrected: bool) returns (block: Option<Block>, next: nat)
    requires i < |lines|
    requires corrected || !StepPanics(lines, i)
    requires KindOf(Trim(lines[i])) in {TableLine, Bullet, OrderedItem, ParagraphLine}
    ensures block == StepAt(lines, i).block
    ensures next == StepAt(lines, i).next
  {
    var trimmed := Trim(lines[i]);
    if StartsWith(trimmed, "|") && EndsWith(trimmed, "|") {
      assert KindOf(trimmed) == TableLine;
      StepAtTable(lines, i);
      block, next := BlockText.ParseTable(lines, i);
      return;
    }
    assert KindOf(trimmed) in {Bullet, OrderedItem, ParagraphLine};
    block, next := DispatchItems(lines, i, corrected);
  }

  /** The tests of `parse` from the list tests on; a paragraph when none matches. */
  method DispatchItems(lines: seq<string>, i: nat, corrected: bool) returns (block: Option<Block>, next: nat)
    requires i < |lines|
    requires KindOf(Trim(lines[i])) in {Bullet, OrderedItem, ParagraphLine}
    requires corrected || !StepPanics(lines, i)
    ensures block == StepAt(lines, i).block
    ensures next == StepAt(lines, i).next
  {
    var trimmed := Trim(lines[i]);
    var listStart := BlockList.ListStart(trimmed, corrected);
    if listStart {
      assert KindOf(trimmed) == Bullet;
      StepAtList(lines, i, false);
      var b, end := BlockList.ParseList(lines, i, false, corrected);
      return Some(b), end;
    }
    if BlockList.IsOrderedListStart(trimmed) {
      assert KindOf(trimmed) == OrderedItem;
      StepAtList(lines, i, true);
      var b, end := BlockList.ParseList(lines, i, true, corrected);
      return Some(b), end;
    }
    assert KindOf(trimmed) == ParagraphLine;
    StepAtParagraph(lines, i);
    var b, end := ParseParagraph(lines, i, corrected);
    return Some(b), end;
  }

  lemma StepAtQuote(lines: seq<string>, i: nat)
    requires i < |lines| && KindOf(Trim(lines[i])) == QuoteLine
    ensures StepAt(lines, i) == Step(Some(BlockText.QuoteAt(lines, i).0), BlockText.QuoteAt(lines, i).1)
  {
  }

  lemma StepAtTable(lines: seq<string>, i: nat)
    requires i < |lines| && KindOf(Trim(lines[i])) == TableLine
    ensures StepAt(lines, i) == Step(BlockText.TableAt(lines, i).0, BlockText.TableAt(lines, i).1)
  {
  }

  lemma StepAtList(lines: seq<string>, i: nat, ordered: bool)
    requires i < |lines| && KindOf(Trim(lines[i])) == if ordered then OrderedItem else Bullet
    ensures StepAt(lines, i) == Step(Some(BlockList.ListAt(lines, i, ordered).0), BlockList.ListAt(lines, i, ordered).1)
  {
  }

  lemma StepAtParagraph(lines: seq<string>, i: nat)
    requires i < |lines| && KindOf(Trim(lines[i])) == ParagraphLine
    ensures StepAt(lines, i) == Step(Some(ParagraphAt(lines, i).0), ParagraphAt(lines, i).1)
  {
  }

  /**
   * `parse`: the dispatch loop. The loop only ends when no line it reaches stalls it, which
   * is what the precondition demands.
   */
  method Parse(content: string) returns (blocks: seq<Block>)
    requires ParseOutcome(content).Done?
    ensures blocks == ParseOutcome(content).blocks
  {
    var lines := Lines(content);
    blocks := [];
    var i := 0;
    ghost var total := ParseFrom(lines, 0).blocks;
    while i < |lines|
      invariant i <= |lines|
      invariant ParseFrom(lines, i).Done?
      invariant total == blocks + ParseFrom(lines, i).blocks
      decreases |lines| - i
    {
      ParseFromStep(lines, i);
      var block, next := Dispatch(lines, i, false);
      ParseAccStep(lines, i, blocks, block, next);
      ghost var prev := blocks;
      if block.Some? {
        blocks := blocks + [block.value];
      }
      assert blocks == prev + Pushed(block);
      i := next;
    }
  }

  // ---------------------------------------------------------------------------------------
  // The loop without stalls
  // ---------------------------------------------------------------------------------------

  /** A paragraph that takes its first line whatever it is, then the lines up to the next stop. */
  function ForcedParagraphAt(lines: seq<string>, start: nat): (Block, nat)
    requires start < |lines|
  {
    var e := ParagraphEnd(lines, start + 1);
    (Paragraph(InlineParser.Parsed(BlockText.Spaced(BlockText.TrimmedLines(lines, start, e)))), e)
  }

  /** The step of `parse`, except that a line on which it would stay put opens a paragraph. */
  function SafeStep(lines: seq<string>, i: nat): (r: Step)
    requires i < |lines|
    ensures i < r.next <= |lines|
  {
    var s := StepAt(lines, i);
    if s.next == i then
      var p := ForcedParagraphAt(lines, i);
      Step(Some(p.0), p.1)
    else s
  }

  /** The blocks of the loop that cannot stall; each step pushes at most one block and moves on. */
  function SafeParseFrom(lines: seq<string>, i: nat): (r: seq<Block>)
    requires i <= |lines|
    ensures |r| <= |lines| - i
    decreases |lines| - i
  {
    if i == |lines| then []
    else
      var s := SafeStep(lines, i);
      Pushed(s.block) + SafeParseFrom(lines, s.next)
  }

  /** Wherever `parse` runs to the end, the loop without stalls yields the same blocks. */
  lemma {:induction false} SafeAgrees(lines: seq<string>, i: nat)
    requires i <= |lines|
    ensures ParseFrom(lines, i).Done? ==> SafeParseFrom(lines, i) == ParseFrom(lines, i).blocks
    decreases |lines| - i
  {
    if i < |lines| && ParseFrom(lines, i).Done? {
      ParseFromStep(lines, i);
      SafeAgrees(lines, StepAt(lines, i).next);
    }
  }

  /**
   * A stall line is kept: it opens a paragraph whose text starts with it, and the paragraph
   * takes the lines after it up to the next stop.
   */
  lemma StallLineKept(lines: seq<string>, i: nat)
    requires i < |lines| && StallLine(Trim(lines[i]))
    ensures var s := SafeStep(lines, i);
      var text := Join(BlockText.TrimmedLines(lines, i, s.next), " ");
      s.block == Some(Paragraph(InlineParser.Parsed(text))) && StartsWith(text, Trim(lines[i])) &&
      (forall k :: i < k < s.next ==> !StopsParagraph(Trim(lines[k])))
  {
    StepStallsIff(lines, i);
    TrimEdges(lines[i]);
    ForcedParagraphText(lines, i);
    ParagraphSpan(lines, i + 1);
  }

  /** A forced paragraph on a non-blank line: its lines joined by spaces, starting with the first. */
  lemma ForcedParagraphText(lines: seq<string>, i: nat)
    requires i < |lines| && Trim(lines[i]) != []
    ensures var tl := BlockText.TrimmedLines(lines, i, ParagraphEnd(lines, i + 1));
      BlockText.Spaced(tl) == Join(tl, " ") && StartsWith(Join(tl, " "), Trim(lines[i]))
  {
    var e := ParagraphEnd(lines, i + 1);
    ParagraphSpan(lines, i + 1);
    var tl := BlockText.TrimmedLines(lines, i, e);
    forall k | 0 <= k < |tl|
      ensures tl[k] != []
    {
      if k > 0 {
        assert !StopsParagraph(Trim(lines[i + k]));
      }
    }
    BlockText.SpacedNonEmpty(tl);
    JoinStartsWithFirst(tl, " ");
  }

  /** One turn of the corrected loop: the blocks so far, then the step's block, then the rest. */
  lemma SafeAccStep(lines: seq<string>, i: nat, acc: seq<Block>)
    requires i < |lines|
    ensures acc + SafeParseFrom(lines, i) ==
      (acc + Pushed(SafeStep(lines, i).block)) + SafeParseFrom(lines, SafeStep(lines, i).next)
  {
    var s := SafeStep(lines, i);
    var rest := SafeParseFrom(lines, s.next);
    assert SafeParseFrom(lines, i) == Pushed(s.block) + rest;
    assert acc + (Pushed(s.block) + rest) == (acc + Pushed(s.block)) + rest;
  }

  /** The corrected `parse_paragraph`: the first line is taken before the stop test applies. */
  method ParseForcedParagraph(lines: seq<string>, start: nat) returns (block: Block, end: nat)
    requires start < |lines|
    ensures block == ForcedParagraphAt(lines, start).0
    ensures end == ForcedParagraphAt(lines, start).1
  {
    var text := Trim(lines[start]);
    BlockText.TrimmedLinesSnoc(lines, start, start);
    var i := start + 1;
    ghost var paragraphEnd := ParagraphEnd(lines, start + 1);
    while i < |lines|
      invariant start < i <= |lines|
      invariant paragraphEnd == ParagraphEnd(lines, i)
      invariant text == BlockText.Spaced(BlockText.TrimmedLines(lines, start, i))
    {
      var trimmed := Trim(lines[i]);
      if StopsParagraph(trimmed) {
        ParagraphEndNext(lines, i);
        break;
      }
      BlockText.SpacedSnoc(lines, start, i);
      ParagraphEndNext(lines, i);
      if text != [] {
        text := text + " ";
      }
      text := text + trimmed;
      i := i + 1;
    }
    var inlines := InlineParser.Parse(text);
    block := Paragraph(inlines);
    end := i;
  }

  /** One turn of the corrected loop: the tests of `parse`, then a forced paragraph if it stayed put. */
  method SafeDispatch(lines: seq<string>, i: nat) returns (block: Option<Block>, next: nat)
    requires i < |lines|
    ensures block == SafeStep(lines, i).block
    ensures next == SafeStep(lines, i).next
  {
    block, next := Dispatch(lines, i, true);
    if next == i {
      var b, end := ParseForcedParagraph(lines, i);
      block, next := Some(b), end;
    }
  }

  /** The corrected `parse`: it accepts every slide and ends after at most one turn per line. */
  method SafeParse(content: string) returns (blocks: seq<Block>)
    ensures blocks == SafeParseFrom(Lines(content), 0)
  {
    var lines := Lines(content);
    blocks := [];
    var i := 0;
    ghost var total := SafeParseFrom(lines, 0);
    while i < |lines|
      invariant i <= |lines|
      invariant total == blocks + SafeParseFrom(lines, i)
      decreases |lines| - i
    {
      var block, next := SafeDispatch(lines, i);
      SafeAccStep(lines, i, blocks);
      ghost var prev := blocks;
      if block.Some? {
        blocks := blocks + [block.value];
      }
      assert blocks == prev + Pushed(block);
      i := next;
    }
  }
}
