/**
 * How mdeck's two-column layout (`render/layouts/two_column.rs`) shares a slide's blocks out:
 * leading level-1/2 headings span both columns, the blocks before the first `+++` separator fill
 * the left column and the blocks after it the right one; separators themselves are not drawn.
 */
module TwoColumn {
  import opened Ast
  import opened Seqs

  /** A heading that spans both columns when it leads the slide. */
  predicate IsTitleHeading(b: Block) {
    b.Heading? && (b.level == 1 || b.level == 2)
  }

  /** The three block lists and the `in_right` flag, after some prefix of the slide. */
  datatype Columns = Columns(heading: seq<Block>, left: seq<Block>, right: seq<Block>, inRight: bool)

  /** One iteration of the partition loop. */
  function ColumnStep(c: Columns, b: Block): Columns {
    if b.ColumnSeparator? then c.(inRight := true)
    else if !c.inRight && IsTitleHeading(b) && c.left == [] then c.(heading := c.heading + [b])
    else if c.inRight then c.(right := c.right + [b])
    else c.(left := c.left + [b])
  }

  function ColumnsOf(blocks: seq<Block>): Columns {
    if blocks == [] then Columns([], [], [], false)
    else ColumnStep(ColumnsOf(blocks[..|blocks| - 1]), blocks[|blocks| - 1])
  }

  /**
   * The partition loop of `render`. `found_separator` is set together with `in_right`, so the two
   * flags are always equal.
   */
  method SplitColumns(blocks: seq<Block>) returns (heading: seq<Block>, left: seq<Block>, right: seq<Block>)
    ensures Columns(heading, left, right, ColumnsOf(blocks).inRight) == ColumnsOf(blocks)
  {
    heading, left, right := [], [], [];
    var inRight := false;
    var foundSeparator := false;
    for k := 0 to |blocks|
      invariant Columns(heading, left, right, inRight) == ColumnsOf(blocks[..k])
      invariant foundSeparator == inRight
    {
      assert blocks[..k + 1][..k] == blocks[..k];
      var block := blocks[k];
      if block.ColumnSeparator? {
        inRight := true;
        foundSeparator := true;
        continue;
      }
      if !foundSeparator && block.Heading? && (block.level == 1 || block.level == 2) && left == [] {
        heading := heading + [block];
        continue;
      }
      if inRight {
        right := right + [block];
      } else {
        left := left + [block];
      }
    }
    assert blocks[..|blocks|] == blocks;
  }

  // ---------------------------------------------------------------------------------------
  // The partition described by positions
  // ---------------------------------------------------------------------------------------

  /** Length of the run of level-1/2 headings the slide starts with. */
  function HeadingRun(blocks: seq<Block>): (n: nat)
    ensures n <= |blocks|
  {
    if blocks == [] then 0
    else
      var r := HeadingRun(blocks[..|blocks| - 1]);
      if r == |blocks| - 1 && IsTitleHeading(blocks[|blocks| - 1]) then r + 1 else r
  }

  /** The run is made of title headings and stops at the first other block. */
  lemma {:induction false} HeadingRunSpec(blocks: seq<Block>)
    ensures forall j :: 0 <= j < HeadingRun(blocks) ==> IsTitleHeading(blocks[j])
    ensures HeadingRun(blocks) < |blocks| ==> !IsTitleHeading(blocks[HeadingRun(blocks)])
  {
    if blocks != [] {
      var init := blocks[..|blocks| - 1];
      HeadingRunSpec(init);
      assert forall j :: 0 <= j < |init| ==> blocks[j] == init[j];
    }
  }

  /** Position of the first separator, or the slide's length when there is none. */
  function FirstSeparator(blocks: seq<Block>): (s: nat)
    ensures s <= |blocks|
  {
    if blocks == [] then 0
    else
      var f := FirstSeparator(blocks[..|blocks| - 1]);
      if f < |blocks| - 1 then f
      else if blocks[|blocks| - 1].ColumnSeparator? then |blocks| - 1
      else |blocks|
  }

  /** No separator comes before the position found, and one sits there unless it is the end. */
  lemma {:induction false} FirstSeparatorSpec(blocks: seq<Block>)
    ensures forall j :: 0 <= j < FirstSeparator(blocks) ==> !blocks[j].ColumnSeparator?
    ensures FirstSeparator(blocks) < |blocks| ==> blocks[FirstSeparator(blocks)].ColumnSeparator?
  {
    if blocks != [] {
      var init := blocks[..|blocks| - 1];
      FirstSeparatorSpec(init);
      assert forall j :: 0 <= j < |init| ==> blocks[j] == init[j];
    }
  }

  /** The blocks other than separators, in order. */
  function WithoutSeparators(blocks: seq<Block>): seq<Block> {
    if blocks == [] then []
    else
      var last := blocks[|blocks| - 1];
      WithoutSeparators(blocks[..|blocks| - 1]) + (if last.ColumnSeparator? then [] else [last])
  }

  lemma {:induction false} WithoutSeparatorsAppend(a: seq<Block>, b: seq<Block>)
    ensures WithoutSeparators(a + b) == WithoutSeparators(a) + WithoutSeparators(b)
    decreases |b|
  {
    if b == [] {
      assert a + b == a;
    } else {
      var init := b[..|b| - 1];
      assert (a + b)[..|a + b| - 1] == a + init;
      WithoutSeparatorsAppend(a, init);
    }
  }

  lemma {:induction false} NoSeparatorsKept(blocks: seq<Block>)
    requires forall j :: 0 <= j < |blocks| ==> !blocks[j].ColumnSeparator?
    ensures WithoutSeparators(blocks) == blocks
  {
    if blocks != [] {
      NoSeparatorsKept(blocks[..|blocks| - 1]);
    }
  }

  lemma WithoutSeparatorsSnoc(init: seq<Block>, b: Block)
    ensures WithoutSeparators(init + [b]) == WithoutSeparators(init) + (if b.ColumnSeparator? then [] else [b])
  {
    assert (init + [b])[..|init|] == init;
  }

  lemma FirstSeparatorSnoc(init: seq<Block>, b: Block)
    ensures FirstSeparator(init + [b]) ==
      if FirstSeparator(init) < |init| then FirstSeparator(init)
      else if b.ColumnSeparator? then |init| else |init| + 1
  {
    assert (init + [b])[..|init|] == init;
  }

  lemma HeadingRunSnoc(init: seq<Block>, b: Block)
    ensures HeadingRun(init + [b]) ==
      if HeadingRun(init) == |init| && IsTitleHeading(b) then |init| + 1 else HeadingRun(init)
  {
    assert (init + [b])[..|init|] == init;
  }

  lemma ColumnsOfSnoc(init: seq<Block>, b: Block)
    ensures ColumnsOf(init + [b]) == ColumnStep(ColumnsOf(init), b)
  {
    assert (init + [b])[..|init|] == init;
  }

  /**
   * The partition by positions: with `k` the length of the leading heading run and `s` the
   * position of the first separator, the heading holds `blocks[..k]`, the left column
   * `blocks[k..s]` and the right column every non-separator block after `s`.
   */
  predicate ByPosition(blocks: seq<Block>) {
    var k := HeadingRun(blocks);
    var s := FirstSeparator(blocks);
    && k <= s
    && ColumnsOf(blocks) == Columns(blocks[..k], blocks[k..s],
         if s < |blocks| then WithoutSeparators(blocks[s + 1..]) else [], s < |blocks|)
  }

  /** After the first separator a block only ever joins the right column. */
  lemma ByPositionAfterSeparator(init: seq<Block>, b: Block)
    requires ByPosition(init) && FirstSeparator(init) < |init|
    ensures ByPosition(init + [b])
  {
    var blocks := init + [b];
    var k0 := HeadingRun(init);
    var s0 := FirstSeparator(init);
    var c0 := ColumnsOf(init);
    FirstSeparatorSnoc(init, b);
    HeadingRunSnoc(init, b);
    AfterSeparatorRight(init, b, s0, c0.right);
    PrefixSlice(init, [b], 0, k0);
    PrefixSlice(init, [b], k0, s0);
    ColumnsOfSnoc(init, b);
    ByPositionFrom(blocks, k0, s0, c0.(right := WithoutSeparators(blocks[s0 + 1..])));
  }

  lemma AfterSeparatorRight(init: seq<Block>, b: Block, s0: nat, right: seq<Block>)
    requires s0 < |init| && right == WithoutSeparators(init[s0 + 1..])
    ensures WithoutSeparators((init + [b])[s0 + 1..]) == right + (if b.ColumnSeparator? then [] else [b])
  {
    SuffixSnoc(init, b, s0 + 1);
    WithoutSeparatorsSnoc(init[s0 + 1..], b);
  }

  lemma ByPositionFrom(blocks: seq<Block>, k: nat, s: nat, c: Columns)
    requires HeadingRun(blocks) == k && FirstSeparator(blocks) == s && k <= s
    requires ColumnsOf(blocks) == c
    requires c.heading == blocks[..k] && c.left == blocks[k..s] && c.inRight == (s < |blocks|)
    requires c.right == if s < |blocks| then WithoutSeparators(blocks[s + 1..]) else []
    ensures ByPosition(blocks)
  {
  }

  /** The first separator switches to the right column, which is still empty. */
  lemma ByPositionAtSeparator(init: seq<Block>, b: Block)
    requires ByPosition(init) && FirstSeparator(init) == |init| && b.ColumnSeparator?
    ensures ByPosition(init + [b])
  {
    var blocks := init + [b];
    var k0 := HeadingRun(init);
    ColumnsOfSnoc(init, b);
    FirstSeparatorSnoc(init, b);
    HeadingRunSnoc(init, b);
    PrefixSlice(init, [b], 0, k0);
    PrefixSlice(init, [b], k0, |init|);
    assert blocks[|init| + 1..] == [];
  }

  /** Before any separator a title heading extends the heading run while the left column is empty. */
  lemma ByPositionHeading(init: seq<Block>, b: Block)
    requires ByPosition(init) && FirstSeparator(init) == |init| && HeadingRun(init) == |init| && IsTitleHeading(b)
    ensures ByPosition(init + [b])
  {
    HeadingSnocParts(init, b);
    ByPositionFrom(init + [b], |init| + 1, |init| + 1, ColumnsOf(init).(heading := init + [b]));
  }

  /** What `ByPositionFrom` needs after a title heading that extends the heading run. */
  lemma HeadingSnocParts(init: seq<Block>, b: Block)
    requires ByPosition(init) && FirstSeparator(init) == |init| && HeadingRun(init) == |init| && IsTitleHeading(b)
    ensures var blocks, c := init + [b], ColumnsOf(init).(heading := init + [b]);
      && ColumnsOf(blocks) == c
      && c.heading == blocks[..|blocks|] && c.left == blocks[|blocks|..|blocks|] && c.right == [] && !c.inRight
      && HeadingRun(blocks) == |blocks| && FirstSeparator(blocks) == |blocks|
  {
    var blocks := init + [b];
    PartsBeforeSeparator(init);
    assert init[..|init|] == init;
    ColumnsOfSnoc(init, b);
    FirstSeparatorSnoc(init, b);
    HeadingRunSnoc(init, b);
    assert blocks[..|blocks|] == blocks;
    assert blocks[|blocks|..|blocks|] == [];
  }

  /** Before any separator every other block joins the left column. */
  lemma ByPositionLeft(init: seq<Block>, b: Block)
    requires ByPosition(init) && FirstSeparator(init) == |init| && !b.ColumnSeparator?
    requires !(HeadingRun(init) == |init| && IsTitleHeading(b))
    ensures ByPosition(init + [b])
  {
    LeftSnocParts(init, b);
    var c0 := ColumnsOf(init);
    ByPositionFrom(init + [b], HeadingRun(init), |init| + 1, c0.(left := c0.left + [b]));
  }

  /** What `ByPositionFrom` needs after a block that joins the left column. */
  lemma LeftSnocParts(init: seq<Block>, b: Block)
    requires ByPosition(init) && FirstSeparator(init) == |init| && !b.ColumnSeparator?
    requires !(HeadingRun(init) == |init| && IsTitleHeading(b))
    ensures var blocks, k0, c0 := init + [b], HeadingRun(init), ColumnsOf(init);
      var c := c0.(left := c0.left + [b]);
      && ColumnsOf(blocks) == c
      && c.heading == blocks[..k0] && c.left == blocks[k0..|init| + 1] && c.right == [] && !c.inRight
      && HeadingRun(blocks) == k0 && FirstSeparator(blocks) == |init| + 1 && k0 <= |init| + 1
  {
    PartsBeforeSeparator(init);
    LeftColumnSnoc(init, b);
    LeftPositionsSnoc(init, b);
    SnocSlices(init, b, HeadingRun(init));
  }

  /** The columns after a block that joins the left column. */
  lemma LeftColumnSnoc(init: seq<Block>, b: Block)
    requires ByPosition(init) && FirstSeparator(init) == |init| && !b.ColumnSeparator?
    requires !(HeadingRun(init) == |init| && IsTitleHeading(b))
    ensures ColumnsOf(init + [b]) == ColumnsOf(init).(left := ColumnsOf(init).left + [b])
  {
    PartsBeforeSeparator(init);
    LeftStep(ColumnsOf(init), b, init[HeadingRun(init)..|init|]);
    ColumnsOfSnoc(init, b);
  }

  /** A block that joins the left column leaves the heading run as it is and is no separator. */
  lemma LeftPositionsSnoc(init: seq<Block>, b: Block)
    requires FirstSeparator(init) == |init| && !b.ColumnSeparator?
    requires !(HeadingRun(init) == |init| && IsTitleHeading(b))
    ensures HeadingRun(init + [b]) == HeadingRun(init) && FirstSeparator(init + [b]) == |init| + 1
  {
    FirstSeparatorSnoc(init, b);
    HeadingRunSnoc(init, b);
  }

  /** Before any separator the columns are the heading run, the rest on the left, nothing on the right. */
  lemma PartsBeforeSeparator(init: seq<Block>)
    requires ByPosition(init) && FirstSeparator(init) == |init|
    ensures var c, k := ColumnsOf(init), HeadingRun(init);
      k <= |init| && c.heading == init[..k] && c.left == init[k..|init|] && c.right == [] && !c.inRight
  {
  }

  /** A block other than a separator or a leading title heading joins the left column. */
  lemma LeftStep(c: Columns, b: Block, left: seq<Block>)
    requires !c.inRight && !b.ColumnSeparator? && c.left == left
    requires IsTitleHeading(b) ==> left != []
    ensures ColumnStep(c, b) == c.(left := c.left + [b])
  {
  }

  lemma {:induction false} ColumnsByPosition(blocks: seq<Block>)
    ensures ByPosition(blocks)
  {
    if blocks != [] {
      var init := blocks[..|blocks| - 1];
      var b := blocks[|blocks| - 1];
      assert init + [b] == blocks;
      ColumnsByPosition(init);
      if FirstSeparator(init) < |init| {
        ByPositionAfterSeparator(init, b);
      } else if b.ColumnSeparator? {
        ByPositionAtSeparator(init, b);
      } else if HeadingRun(init) == |init| && IsTitleHeading(b) {
        ByPositionHeading(init, b);
      } else {
        ByPositionLeft(init, b);
      }
    }
  }

  /** Every block but the separators is drawn exactly once: heading, then left, then right. */
  lemma ColumnsPartition(blocks: seq<Block>)
    ensures var c := ColumnsOf(blocks);
      c.heading + c.left + c.right == WithoutSeparators(blocks)
  {
    var k := HeadingRun(blocks);
    var s := FirstSeparator(blocks);
    var c := ColumnsOf(blocks);
    var rest := if s < |blocks| then WithoutSeparators(blocks[s + 1..]) else [];
    assert c == Columns(blocks[..k], blocks[k..s], rest, s < |blocks|) by {
      ColumnsByPosition(blocks);
    }
    assert c.heading + c.left == WithoutSeparators(blocks[..s]) by {
      SplitAt(blocks, k, s);
      BeforeSeparatorKept(blocks);
    }
    assert WithoutSeparators(blocks) == WithoutSeparators(blocks[..s]) + rest by {
      if s < |blocks| {
        FirstSeparatorSpec(blocks);
        SkipSeparator(blocks, s);
      } else {
        assert blocks[..s] == blocks;
      }
    }
  }

  lemma BeforeSeparatorKept(blocks: seq<Block>)
    ensures WithoutSeparators(blocks[..FirstSeparator(blocks)]) == blocks[..FirstSeparator(blocks)]
  {
    FirstSeparatorSpec(blocks);
    NoSeparatorsKept(blocks[..FirstSeparator(blocks)]);
  }

  /** Dropping separators around a separator at `s`. */
  lemma SkipSeparator(blocks: seq<Block>, s: nat)
    requires s < |blocks| && blocks[s].ColumnSeparator?
    ensures WithoutSeparators(blocks) == WithoutSeparators(blocks[..s]) + WithoutSeparators(blocks[s + 1..])
  {
    var pre, x, post := blocks[..s], blocks[s], blocks[s + 1..];
    assert blocks == pre + ([x] + post) by {
      SplitAround(blocks, s);
    }
    assert WithoutSeparators([x] + post) == WithoutSeparators(post) by {
      WithoutSeparatorsAppend([x], post);
      WithoutSeparatorsSnoc([], x);
      assert [] + [x] == [x];
    }
    WithoutSeparatorsAppend(pre, [x] + post);
  }

  /** Without a separator the right column stays empty. */
  lemma NoSeparatorNoRight(blocks: seq<Block>)
    requires forall j :: 0 <= j < |blocks| ==> !blocks[j].ColumnSeparator?
    ensures ColumnsOf(blocks).right == []
  {
    ColumnsByPosition(blocks);
    FirstSeparatorSpec(blocks);
  }

  /** The spanning heading holds only level-1/2 headings, and only those leading the slide. */
  lemma HeadingIsLeadingRun(blocks: seq<Block>)
    ensures var h := ColumnsOf(blocks).heading;
      && (forall j :: 0 <= j < |h| ==> IsTitleHeading(h[j]))
      && |h| <= |blocks| && h == blocks[..|h|]
  {
    ColumnsByPosition(blocks);
    HeadingRunSpec(blocks);
  }
}
