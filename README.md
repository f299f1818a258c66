# mdeck / presemd core in Dafny

This project models the core of the mdeck/presemd slide-deck tool, which turns a markdown file into a presentation. The model covers the text a deck is written in, the blocks that text is parsed into, and the state of the presenter while it runs:

- **Frontmatter** (`presemd/src/parser/frontmatter.rs`):
  - the optional byte-order mark;
  - the `---` fenced header and the search for its closing line with its byte offset;
  - the manual `key: value` reader, used when the YAML reader fails. The YAML reader is a parameter.
- **Splitter** (`presemd/src/parser/splitter.rs`) cuts the body into slides in four passes:
  - CRLF normalisation;
  - `---` separators;
  - runs of three or more blank lines;
  - a new slide at each top-level `# ` heading, which never breaks inside a code fence.
- **BlockLines, BlockCode, BlockImage, BlockList, BlockText, BlockParse** (`mdeck/src/parser/blocks.rs`):
  - leading `@name: value` directives;
  - rules, headings, fenced code with highlight specifications and `@diagram`, images with `@` options;
  - nested lists with their reveal markers, block quotes, tables and paragraphs;
  - the dispatch loop that turns a slide into blocks.
- **InlineParser** (`mdeck/src/parser/inline.rs`): inline code, bold, italic, strikethrough and links, each with its fallback to literal text.
- **Reveal, Diagram** (`presemd/src/render/text.rs`):
  - the step at which each list item is revealed, and `count_list_items`;
  - the text form of diagrams: nodes, labels and arrows.
- **TwoColumn, ImageSlide, Quote, Title** (the layout files under `render/layouts/`): which blocks of a slide each layout draws where, and how a quote's attribution is cleaned.
- **Transition** (`mdeck/src/render/transition.rs`): transition names and the direction of a spatial move on the slide grid.
- **App** (`presemd/src/app.rs`): the presenter state as a class:
  - the current slide, the reveal step of every slide and the running transition;
  - the grid overview and its selection.

Wherever the source loops and updates variables, the model does the same: a method with a loop is proved equal to a specification function. The properties are then proved about that function. The shared data model, `Ast`, follows the block and inline types that both parsers produce; `Strings` and `Seqs` hold the string and sequence helpers.

## Model

| member | source | states |
|---|---|---|
| App.GridColumns | crates/presemd/src/app.rs:209-218 | the grid has 2, 3 or 4 columns |
| App.InitInv | crates/presemd/src/app.rs:84-105 | the initial state satisfies the invariant and no slide has revealed anything |
| App.ForwardKeepsInv | crates/presemd/src/app.rs:116-140 | moving forward keeps every reveal count within its slide's maximum and every index inside the deck |
| App.BackwardKeepsInv | crates/presemd/src/app.rs:142-170 | moving backward keeps the invariant, including when it sets the previous slide to fully revealed |
| App.MovesKeepInv | crates/presemd/src/app.rs:172-176 | jumps, completed transitions, opening and closing the grid keep the invariant |
| App.GridKeepsInv | crates/presemd/src/app.rs:302-332 | every grid key keeps the selection inside the deck |
| App.ForwardSpec | crates/presemd/src/app.rs:116-140 | forward reveals one more item when some remain and leaves other slides alone; on a fully revealed slide it starts a forward transition to the next slide, and on the last slide it does nothing |
| App.BusyIgnoresKeys | crates/presemd/src/app.rs:117-119 | while a transition is running, forward, backward and jumps change nothing |
| App.BackwardUndoesReveal | crates/presemd/src/app.rs:124-127 | backward after a forward step that revealed an item restores the exact previous state |
| App.ForwardRedoesHide | crates/presemd/src/app.rs:150-153 | forward after a backward step that hid an item restores the exact previous state |
| App.NextThenBack | crates/presemd/src/app.rs:155-169 | leaving a fully revealed slide and coming back, each transition completed, restores the state: the slide is shown fully revealed again |
| App.HomeEnd | crates/presemd/src/app.rs:285-291 | Home jumps to the first slide and End to the last when no transition runs |
| App.GridColumnsShape | crates/presemd/src/app.rs:209-218 | up to nine slides fit in a square grid of that many columns, and more slides never give fewer columns |
| App.GridMovesUndo | crates/presemd/src/app.rs:306-322 | Right then Left and Down then Up return to the same selection unless the edge of the deck clamped the move |
| App.GridRoundTrip | crates/presemd/src/app.rs:292-332 | opening the grid then Enter shows the same slide; opening it then Escape returns to the slide view with the HUD off |
| App.PresentationApp.constructor | crates/presemd/src/app.rs:72-105 | starts on slide 0 in the slide view with nothing revealed and no transition; the default transition is presemd's reading of the frontmatter name, the horizontal slide when there is none, and never the spatial one |
| App.PresentationApp.NavigateForward | crates/presemd/src/app.rs:116-140 | the new state is the forward step of the old state, and the invariant holds |
| App.PresentationApp.NavigateBackward | crates/presemd/src/app.rs:142-170 | the new state is the backward step of the old state, and the invariant holds |
| App.PresentationApp.JumpToSlide | crates/presemd/src/app.rs:172-176 | jumps only to an index inside the deck and only when no transition runs |
| App.PresentationApp.CompleteTransition | crates/presemd/src/app.rs:346-353 | a finished transition makes its target the current slide and clears the transition |
| App.PresentationApp.Escape | crates/presemd/src/app.rs:292-300 | Escape opens the grid on the current slide (hiding the HUD) from the slide view, and closes it from the grid |
| App.PresentationApp.GridKey | crates/presemd/src/app.rs:302-328 | the arrow keys move the selection, clamped to the deck, and Enter shows the selected slide; nothing happens outside the grid |
| Transition.PresemdFromName | crates/presemd/src/render/transition.rs:54-61 | presemd's map agrees with mdeck's on every name except "spatial", which gives the horizontal slide; it never yields the spatial transition |
| Transition.FromNameName | crates/mdeck/src/render/transition.rs:68-76 | every transition kind is selected by its own name |
| Transition.FromNameOnly | crates/mdeck/src/render/transition.rs:68-76 | a kind other than the horizontal slide comes only from its own name, and any unknown name gives the horizontal slide |
| Transition.FromNameExamples | crates/mdeck/src/render/transition.rs:142-163 | the known names and an unknown name map as the source's tests expect |
| Transition.Sign | crates/mdeck/src/render/transition.rs:61-62 | the sign is -1, 0 or 1 and agrees with the sign of its argument |
| Transition.SpatialDirectionSpec | crates/mdeck/src/render/transition.rs:55-64 | each component is -1, 0 or 1, positive exactly when the target column or row is after the source's, and zero exactly when they are equal |
| Transition.SpatialDirectionSwap | crates/mdeck/src/render/transition.rs:55-64 | swapping source and target negates the direction, and a transition to the same slide does not move |
| Transition.SpatialDirectionExamples | crates/mdeck/src/render/transition.rs:165-197 | the four grid cases of the source's tests |
| TwoColumn.SplitColumns | crates/mdeck/src/render/layouts/two_column.rs:29-57 | the loop's heading, left and right lists are those of the block-by-block specification, with `found_separator` always equal to `in_right` |
| TwoColumn.HeadingRunSpec | crates/mdeck/src/render/layouts/two_column.rs:42-51 | the heading run is made of level-1 and level-2 headings and ends at the first other block |
| TwoColumn.FirstSeparatorSpec | crates/mdeck/src/render/layouts/two_column.rs:37-41 | no separator comes before the position found, and a separator sits there unless it is the end of the slide |
| TwoColumn.ColumnsByPosition | crates/mdeck/src/render/layouts/two_column.rs:36-57 | the heading is the leading run of title headings before the first separator; the left column is the rest before that separator; the right column is everything after it, separators dropped |
| TwoColumn.ColumnsPartition | crates/mdeck/src/render/layouts/two_column.rs:36-57 | every block except the separators lands in exactly one list, in order: heading, then left, then right |
| TwoColumn.NoSeparatorNoRight | crates/mdeck/src/render/layouts/two_column.rs:52-56 | without a separator the right column stays empty |
| TwoColumn.HeadingIsLeadingRun | crates/mdeck/src/render/layouts/two_column.rs:42-51 | the spanning heading holds only level-1 and level-2 headings, and only those leading the slide |
| ImageSlide.PicksOf | crates/mdeck/src/render/layouts/image_slide.rs:22-40 | the heading pick is a heading, the image pick an image and the caption pick a paragraph, and a caption is picked only once an image is |
| ImageSlide.SelectBlocks | crates/mdeck/src/render/layouts/image_slide.rs:22-40 | the loop with its guarded match arms picks what the block-by-block specification picks |
| ImageSlide.PicksByPosition | crates/mdeck/src/render/layouts/image_slide.rs:27-40 | the image is the first image block; the heading is the first heading before it (anywhere when there is no image); the caption is the first paragraph after it |
| ImageSlide.PlanByPosition | crates/mdeck/src/render/layouts/image_slide.rs:42-92 | without an image the slide falls back to the content layout; a `fill` image is drawn full-bleed with the heading and no caption; any other image is framed with heading and caption |
| ImageSlide.FallbackIffNoImage | crates/mdeck/src/render/layouts/image_slide.rs:42-61 | the fallback is taken exactly when the slide has no image block |
| Quote.PicksOf | crates/presemd/src/render/layouts/quote.rs:19-35 | each pick is of its own kind, and an attribution is picked only once a quote is |
| Quote.SelectBlocks | crates/presemd/src/render/layouts/quote.rs:19-35 | the loop picks what the block-by-block specification picks |
| Quote.PicksByPosition | crates/presemd/src/render/layouts/quote.rs:24-35 | the heading is the last heading of any level, the quote the last block quote, and the attribution the last paragraph after the first quote |
| Quote.EarlyParagraphIgnored | crates/presemd/src/render/layouts/quote.rs:28-32 | a paragraph that no quote precedes is never the attribution, unless an equal paragraph comes later |
| Quote.CleanAttribution | crates/presemd/src/render/layouts/quote.rs:147-158 | the result has the same length as the input and the same elements after the first; input that does not start with text is returned unchanged |
| Quote.CleanChangesIffDashLed | crates/presemd/src/render/layouts/quote.rs:149-156 | the attribution changes exactly when its first inline is text starting with `--` after leading whitespace; otherwise even the leading spaces stay |
| Quote.DashesBecomeEmDash | crates/presemd/src/render/layouts/quote.rs:150-155 | leading whitespace, `--` or `---`, whitespace, then a name become an em dash, one space and the name; `---` is tried first, so no stray dash is left |
| Quote.CleanIdempotent | crates/presemd/src/render/layouts/quote.rs:147-158 | cleaning twice gives the same as cleaning once |
| Quote.CleanExamples | crates/presemd/src/render/layouts/quote.rs:147-158 | `-- Ada` and `---Ada` become `— Ada`; text without a dash and a first inline that is not text stay as they are |
| Title.PicksOf | crates/mdeck/src/render/layouts/title.rs:18-33 | the title is a level-1 heading and the subtitle a level-2 heading or a paragraph |
| Title.SelectBlocks | crates/mdeck/src/render/layouts/title.rs:18-33 | the loop picks what the block-by-block specification picks |
| Title.PicksByPosition | crates/mdeck/src/render/layouts/title.rs:22-33 | the title is the last level-1 heading; the subtitle is the last level-2 heading if there is one, and otherwise the first paragraph |
| Title.SubtitleHeadingWins | crates/mdeck/src/render/layouts/title.rs:25-30 | a level-2 heading anywhere on the slide beats every paragraph, before it or after it |
| Title.MissingParts | crates/mdeck/src/render/layouts/title.rs:22-33 | there is no title exactly when no level-1 heading exists, and no subtitle exactly when neither a level-2 heading nor a paragraph exists |
| Reveal.DrawList | crates/presemd/src/render/text.rs:153-239 | the items drawn and the counter afterwards are those of the reveal specification: each item's step follows its marker, a hidden item is skipped with its children, and children share the counter |
| Reveal.CounterBounds | crates/presemd/src/render/text.rs:173-187 | drawing advances the shared counter by at least nothing and at most the number of `+` items at all depths |
| Reveal.AllCounted | crates/presemd/src/render/text.rs:173-187 | once the reveal step covers every `+` item, the counter has passed every `+` item at all depths |
| Reveal.AllShown | crates/presemd/src/render/text.rs:173-234 | once the reveal step covers every `+` item, the whole tree is drawn, children included |
| Reveal.NothingNewRevealed | crates/presemd/src/render/text.rs:173-187 | a reveal step the counter has already reached draws no `+` item at any depth |
| Reveal.StaticListShown | crates/presemd/src/render/text.rs:173-187 | a list without `+` items is drawn whole at every reveal step |
| Reveal.SizeByChildren | crates/presemd/src/render/text.rs:508-514 | a list tree holds its top-level items plus all their descendants |
| Reveal.CountListItems | crates/presemd/src/render/text.rs:508-514 | the count is the number of items at all depths of the tree |
| Reveal.ShownWithinSize | crates/presemd/src/render/text.rs:153-239 | drawing never shows more items than the tree holds |
| Diagram.StripParensSpec | crates/presemd/src/render/text.rs:1048-1059 | with trailing `(...)` metadata preceded by a space, the result is the text before it, right-trimmed; without metadata it is the right-trimmed line; either way a prefix of the input without trailing whitespace |
| Diagram.StripParensIff | crates/presemd/src/render/text.rs:1050-1056 | the line gets shorter than its right-trimmed form exactly when it ends in metadata |
| Diagram.MetadataStripped | crates/presemd/src/render/text.rs:1053-1054 | `db (x)` becomes `db` |
| Diagram.CallKept | crates/presemd/src/render/text.rs:1053 | `f(x)` is kept whole, because no space precedes the parenthesis |
| Diagram.StripListPrefix | crates/presemd/src/render/text.rs:976-981 | the line is unchanged or loses exactly a two-character `- `, `+ ` or `* ` prefix |
| Diagram.ClassifyTrimmed | crates/presemd/src/render/text.rs:992-1041 | every name and label a line yields is trimmed |
| Diagram.IndexOf | crates/presemd/src/render/text.rs:1005-1025 | the position found holds the node with that name, and no position holds it when none is found |
| Diagram.AddNodeProps | crates/presemd/src/render/text.rs:1005-1018 | adding a node keeps names distinct, keeps existing nodes and their labels, and the name is then present |
| Diagram.SetLabelProps | crates/presemd/src/render/text.rs:1025-1030 | after a `name: label` line the node has that label, and every other node keeps its own |
| Diagram.StepProps | crates/presemd/src/render/text.rs:973-1042 | one line keeps names distinct, keeps every existing node, and adds exactly the edge an arrow line declares, with both ends present as nodes |
| Diagram.NamesDistinct | crates/presemd/src/render/text.rs:971-1041 | no two nodes share a name |
| Diagram.NodesGrow | crates/presemd/src/render/text.rs:1005-1041 | later lines never remove or rename nodes: the node list only grows at its end |
| Diagram.EdgesAreArrows | crates/presemd/src/render/text.rs:992-1020 | the edges are exactly the arrow lines, in order |
| Diagram.EdgeEndsAreNodes | crates/presemd/src/render/text.rs:1004-1018 | both ends of every edge are nodes |
| Diagram.LabelLineSets | crates/presemd/src/render/text.rs:1021-1030 | a `name: label` line gives that node the label, whether it is new or seen before |
| Diagram.OtherLinesKeepLabels | crates/presemd/src/render/text.rs:1004-1041 | an arrow line or a bare name never relabels a node that already exists |
| Diagram.ParseDiagram | crates/presemd/src/render/text.rs:968-1045 | the loop with its `seen` map gives the nodes and edges of the line-by-line specification |
| Diagram.ReadLine | crates/presemd/src/render/text.rs:974-1041 | one line changes the nodes and edges exactly as one step of the line-by-line specification, and `seen` stays an index of every node |
| Diagram.Remember | crates/presemd/src/render/text.rs:1005-1018 | a name not seen before is appended as a node and remembered at its position; a known name changes nothing |
| InlineParser.Peek | crates/mdeck/src/parser/inline.rs:78-80 | a character is returned exactly when the index is inside the input, and it is the character there |
| InlineParser.Flush | crates/mdeck/src/parser/inline.rs:72-76 | pending text is appended as one `Text` element when it is non-empty, and nothing is appended otherwise |
| InlineParser.ToggleCountsTicks | crates/mdeck/src/parser/inline.rs:131-133 | the backtick toggle is set exactly when an odd number of backticks has been read since the content began |
| InlineParser.CloseScanFirst | crates/mdeck/src/parser/inline.rs:116-139 | the scan for a closing delimiter stops at the first acceptable position, and fails only when there is none |
| InlineParser.DelimitedAt | crates/mdeck/src/parser/inline.rs:95-140 | a span found ends just past the closing delimiter, within the input |
| InlineParser.DelimitedAtShape | crates/mdeck/src/parser/inline.rs:95-140 | a delimited span is the opener, non-empty content with an even number of backticks, and the closer |
| InlineParser.DelimitedAtFirstClose | crates/mdeck/src/parser/inline.rs:104-139 | a span is found exactly when the opener is present and some later position closes it outside inline code, and it ends at the first such position |
| InlineParser.InlineCodeAt | crates/mdeck/src/parser/inline.rs:82-93 | the index returned is just past the closing backtick |
| InlineParser.InlineCodeAtShape | crates/mdeck/src/parser/inline.rs:82-93 | inline code is everything up to the next backtick, which it needs; without one there is no code span |
| InlineParser.BalanceScan | crates/mdeck/src/parser/inline.rs:151-164 | the depth-counting scan stops at the first closer that brings the depth back to 0, with the depth positive before it, and fails only when there is none |
| InlineParser.LinkAt | crates/mdeck/src/parser/inline.rs:142-206 | no link starts at a character other than `[`; a link found ends just past its `)` |
| InlineParser.LinkAtShape | crates/mdeck/src/parser/inline.rs:142-206 | a link spans `[text](url)` in the input, with balanced brackets in the text and balanced parentheses in the URL |
| InlineParser.Attempt | crates/mdeck/src/parser/inline.rs:11-62 | a span is attempted only at a character that opens one, and it consumes at least that character |
| InlineParser.Parse | crates/mdeck/src/parser/inline.rs:4-70 | the character loop with its pending-text buffer gives the recursive specification's result |
| InlineParser.ParseStep | crates/mdeck/src/parser/inline.rs:11-65 | one round of the loop moves forward and leaves the scan of the rest unchanged: a span is flushed and pushed where one opens, otherwise the character joins the pending text |
| InlineParser.TrySpan | crates/mdeck/src/parser/inline.rs:12-62 | the five opener tests, tried in the source's order, give the span the specification attempts at the position, or none |
| InlineParser.ParseInlineCode | crates/mdeck/src/parser/inline.rs:82-93 | the loop returns the code span of the specification |
| InlineParser.DelimiterAt | crates/mdeck/src/parser/inline.rs:105-109 | the per-character comparison succeeds exactly when the delimiter occurs at the position |
| InlineParser.ParseDelimited | crates/mdeck/src/parser/inline.rs:95-140 | the opener check and the closing scan return the delimited span of the specification |
| InlineParser.DelimitedChar | crates/mdeck/src/parser/inline.rs:117-136 | one character of the scan: outside inline code a closer after some content ends the span at the specification's closing position, otherwise the content and the backtick parity stay in step |
| InlineParser.ScanBalanced | crates/mdeck/src/parser/inline.rs:151-164 | the loop returns the text read and stops on the closer exactly where the depth-counting specification finds it |
| InlineParser.BalanceChar | crates/mdeck/src/parser/inline.rs:154-163 | one character of the loop: it stops on the closer that brings the depth to 0, otherwise keeps the text read and the depth in step with the specification |
| InlineParser.ParseLink | crates/mdeck/src/parser/inline.rs:142-206 | a link is returned exactly when the specification finds one, with its text parsed and its URL verbatim |
| InlineParser.ParsedRoundTrip | crates/mdeck/src/parser/inline.rs:4-70 | the parse loses nothing: rendering the elements back with their delimiters gives the input text |
| InlineParser.AttemptRoundTrip | crates/mdeck/src/parser/inline.rs:11-62 | a recognised span renders back to exactly the characters it consumed |
| InlineParser.ParsedTidy | crates/mdeck/src/parser/inline.rs:4-76 | no `Text` element is empty and no `Code` element holds a backtick, at any depth |
| InlineParser.PlainTextIsOneText | crates/mdeck/src/parser/inline.rs:213-217 | text without backticks, asterisks, double tildes or brackets is one `Text` element |
| InlineParser.BoldOfPlain | crates/mdeck/src/parser/inline.rs:220-225 | plain text between `**` and `**` is one bold element |
| InlineParser.ItalicOfPlain | crates/mdeck/src/parser/inline.rs:228-233 | plain text between single asterisks is one italic element |
| InlineParser.CodeOfVerbatim | crates/mdeck/src/parser/inline.rs:236-240 | anything without a backtick between two backticks is one code element, kept verbatim |
| BlockLines.DirectiveLine | crates/mdeck/src/parser/blocks.rs:28-47 | a directive comes only from a line starting with `@` that holds a colon, and its name is non-empty and made of word characters and hyphens |
| BlockLines.DirectiveLineOf | crates/mdeck/src/parser/blocks.rs:28-47 | an `@name:value` line splits at its first colon into the trimmed name and value, and is a directive exactly when the trimmed name is valid |
| BlockLines.DirectiveScanStops | crates/mdeck/src/parser/blocks.rs:10-21 | the content starts at the first line that is neither blank nor a directive, and every line before it is one of those |
| BlockLines.DirectiveScanCollects | crates/mdeck/src/parser/blocks.rs:16-19 | the directives are exactly the directive lines before the content, in order |
| BlockLines.ExtractDirectives | crates/mdeck/src/parser/blocks.rs:5-26 | the loop with its `past_directives` flag returns the directives and the remaining content of the line-by-line specification |
| BlockLines.SeparateDirectives | crates/mdeck/src/parser/blocks.rs:10-23 | the directives returned are those the scan collects before the first content line, and the kept lines are every line from that one on |
| BlockLines.ScanLine | crates/mdeck/src/parser/blocks.rs:11-20 | before the content, a blank line is skipped, a directive line adds its directive after those collected, and a content line ends the scan |
| BlockLines.NonWhitespaceCount | crates/mdeck/src/parser/blocks.rs:151 | dropping whitespace keeps every occurrence of every non-whitespace character |
| BlockLines.HorizontalRuleIff | crates/mdeck/src/parser/blocks.rs:147-157 | a line is a rule exactly when it holds three or more of one rule character (`*` or `_`) and only whitespace besides |
| BlockLines.HeadingAt | crates/mdeck/src/parser/blocks.rs:159-185 | a heading's level is between 1 and 6 |
| BlockLines.HeadingIff | crates/mdeck/src/parser/blocks.rs:159-185 | a line is a heading exactly when it starts with one to six `#` followed by a space or by nothing; the level is the number of `#` and the text the trimmed rest |
| BlockLines.ParseHeading | crates/mdeck/src/parser/blocks.rs:159-185 | the counting loop gives the heading block of the specification |
| BlockCode.RangeMembers | crates/mdeck/src/parser/blocks.rs:271-273 | an inclusive range holds exactly the numbers between its bounds, each once and in increasing order; an inverted range is empty |
| BlockCode.PushRange | crates/mdeck/src/parser/blocks.rs:271-273 | the push loop appends the inclusive range |
| BlockCode.PushPart | crates/mdeck/src/parser/blocks.rs:268-277 | one comma part appends what the specification says it contributes |
| BlockCode.ParseHighlightSpec | crates/mdeck/src/parser/blocks.rs:265-280 | the loop over comma parts returns the highlighted lines of the specification |
| BlockCode.HighlightAppend | crates/mdeck/src/parser/blocks.rs:267 | the comma parts contribute independently: the lines of `a,b` are those of `a` then those of `b` |
| BlockCode.PartLinesNumber | crates/mdeck/src/parser/blocks.rs:275-276 | a plain number contributes exactly that line |
| BlockCode.CodeInfo | crates/mdeck/src/parser/blocks.rs:232-263 | a language is never empty; a diagram has neither language nor highlighted lines; highlighted lines need a `{` |
| BlockCode.CodeInfoLanguageTrimmed | crates/mdeck/src/parser/blocks.rs:243-259 | a language never starts or ends with whitespace |
| BlockCode.CodeInfoExample | crates/mdeck/src/parser/blocks.rs:233-240 | `@diagram` marks a diagram, and an empty info string gives nothing |
| BlockCode.ClosesFenceIff | crates/mdeck/src/parser/blocks.rs:200-208 | a trimmed line closes the fence exactly when it is at least as many fence characters as the opening fence and nothing else |
| BlockCode.CloseFenceFirst | crates/mdeck/src/parser/blocks.rs:199-214 | the block ends at the first closing line; no line before it closes the fence |
| BlockCode.CodeBlockAt | crates/mdeck/src/parser/blocks.rs:187-230 | the index after the block is past the opening line and within the text |
| BlockCode.ParseCodeBlock | crates/mdeck/src/parser/blocks.rs:187-230 | the loop returns the code or diagram block and the next index of the specification: the lines strictly between the fences, joined by newlines, to the end when the fence is not closed |
| BlockCode.CollectCode | crates/mdeck/src/parser/blocks.rs:196-214 | the loop keeps every line before the first line that closes the fence and ends just after that line, or at the end when no line closes it |
| BlockImage.ParseImageAlt | crates/mdeck/src/parser/blocks.rs:305-332 | the word loop returns the alt text and directives of the word-by-word specification |
| BlockImage.AltKeepsPlainWords | crates/mdeck/src/parser/blocks.rs:309-329 | every `@` word is removed from the alt text and every other word stays, in order |
| BlockImage.AltFillFit | crates/mdeck/src/parser/blocks.rs:311-314 | the image fills the slide exactly when `@fill` is among the words, and likewise `@fit` |
| BlockImage.AltAlignIsLast | crates/mdeck/src/parser/blocks.rs:315-320 | the last alignment word wins |
| BlockImage.ImageAt | crates/mdeck/src/parser/blocks.rs:282-303 | only a line starting with `![` gives an image block |
| BlockImage.ParseImage | crates/mdeck/src/parser/blocks.rs:282-303 | the two searches and the alt loop give the image of the specification |
| BlockImage.ImageNeedsDelimiters | crates/mdeck/src/parser/blocks.rs:288-292 | without `](`, or without a `)` after it, the line is not an image |
| BlockImage.ImageRoundTrip | crates/mdeck/src/parser/blocks.rs:282-303 | `![alt](path)` followed by anything is read back with that path and the alt text's words and directives |
| BlockImage.AltFoldExample | crates/mdeck/src/parser/blocks.rs:659-686 | `Photo @fill @left` gives the alt `Photo`, a fill image, aligned left |
| BlockList.ListStartPanicsExactly | crates/mdeck/src/parser/blocks.rs:403-410 | the check as written panics exactly on a line of one non-ASCII character, and elsewhere agrees with the corrected check |
| BlockList.ListStart | crates/mdeck/src/parser/blocks.rs:403-410 | the check returns whether the line is an unordered list start; run as written, it may only be called where it does not panic, and then returns the same answer |
| BlockList.ListPanicsLine | crates/mdeck/src/parser/blocks.rs:423-502 | a list scan as written panics only by reaching, past its first line, a line that is one non-ASCII character once trimmed |
| BlockList.ListStartPanicExample | crates/mdeck/src/parser/blocks.rs:404-408 | a trimmed line holding only `é` makes the check as written panic |
| BlockList.UnorderedMarkers | crates/mdeck/src/parser/blocks.rs:547-563 | `-`, `+` and `*` items are static, next-step and with-previous items; the text follows the marker and its space; a line is such an item exactly when it is an unordered list start |
| BlockList.OrderedMarker | crates/mdeck/src/parser/blocks.rs:565-571 | an ordered item is non-empty digits, `. ` and the text, and every line it accepts is an ordered list start |
| BlockList.OrderedStartWithoutItem | crates/mdeck/src/parser/blocks.rs:412-417 | `1 . x` counts as an ordered list start, because the digits are trimmed there, but not as an ordered item, because they are not trimmed there |
| BlockList.LineIndentIs | crates/mdeck/src/parser/blocks.rs:577-579 | the indent is the byte length of the leading whitespace, and it is 0 exactly when the line does not start with whitespace |
| BlockList.Children | crates/mdeck/src/parser/blocks.rs:507-545 | the children scan ends at or after where it started, within the lines |
| BlockList.ChildrenCount | crates/mdeck/src/parser/blocks.rs:507-545 | every non-blank line the children scan consumes becomes exactly one item of the subtree |
| BlockList.ChildrenStop | crates/mdeck/src/parser/blocks.rs:515-541 | the children scan stops at the end, or at a non-blank line that is not indented deeper than the parent or is not an item |
| BlockList.CollectChildren | crates/mdeck/src/parser/blocks.rs:507-545 | the recursive loop returns the children and the next index of the specification |
| BlockList.CollectItem | crates/mdeck/src/parser/blocks.rs:520-541 | a non-blank line not indented deeper than the parent, or not an item, ends the scan; otherwise it becomes the next child, with its own children, and the scan goes on after them |
| BlockList.NextNonBlank | crates/mdeck/src/parser/blocks.rs:429-432 | the look-ahead stops at the first non-blank line, or at the end |
| BlockList.AdoptChild | crates/mdeck/src/parser/blocks.rs:489-496 | attaching a stray nested item keeps the number of top-level items |
| BlockList.AdoptChildSize | crates/mdeck/src/parser/blocks.rs:489-496 | attaching a stray nested item adds exactly its own subtree to the tree |
| BlockList.ListFrom | crates/mdeck/src/parser/blocks.rs:423-502 | the list scan ends at or after where it started, within the lines |
| BlockList.ListFromCount | crates/mdeck/src/parser/blocks.rs:423-502 | once there is an item, every non-blank line the list consumes becomes exactly one item at some depth |
| BlockList.ListAtCount | crates/mdeck/src/parser/blocks.rs:419-505 | a list whose first line is an unindented item holds one item, at some depth, per non-blank line it consumes |
| BlockList.IndentedFirstItemDropped | crates/mdeck/src/parser/blocks.rs:489-498 | an indented item met before any top-level item is consumed and lost |
| BlockList.NestedThreeLevels | crates/mdeck/src/parser/blocks.rs:751-761 | `- Parent`, `  - Child` and `    - Grandchild` nest three levels deep |
| BlockList.ParseList | crates/mdeck/src/parser/blocks.rs:419-505 | the line loop with its blank-line look-ahead returns the list block and the next index of the specification; run as written it requires that no look-ahead or item test reaches a line on which the list-start check panics |
| BlockList.SkipBlankLines | crates/mdeck/src/parser/blocks.rs:429-432 | the look-ahead returns the first non-blank line at or after where it starts, or the end |
| BlockList.ListLine | crates/mdeck/src/parser/blocks.rs:447-502 | a non-blank line either ends the list with the items unchanged, or moves past itself and its children with the items the specification adds |
| BlockText.SpacedJoin | crates/mdeck/src/parser/blocks.rs:341-349 | appending piece by piece joins the pieces with single spaces, except that empty pieces met while the text is still empty leave no trace |
| BlockText.SpacedNonEmpty | crates/mdeck/src/parser/blocks.rs:605-608 | when no piece is empty, the text is the pieces joined with single spaces |
| BlockText.QuoteEnd | crates/mdeck/src/parser/blocks.rs:338-354 | a quote started on a quote line moves past it |
| BlockText.QuoteEndSpan | crates/mdeck/src/parser/blocks.rs:338-354 | the quote takes every line up to the first line that is not a quote line, and stops there |
| BlockText.ParseBlockquote | crates/mdeck/src/parser/blocks.rs:334-358 | the loop returns the quote block and the next index of the specification |
| BlockText.TableStop | crates/mdeck/src/parser/blocks.rs:364-375 | a table scan started on a `|` line moves past it |
| BlockText.TableRowCells | crates/mdeck/src/parser/blocks.rs:395-401 | a row has one cell more than there are `|` inside its outer pipes |
| BlockText.TableStopSpan | crates/mdeck/src/parser/blocks.rs:364-375 | the table takes every `|` line up to the first other line, and stops there |
| BlockText.TableAdvances | crates/mdeck/src/parser/blocks.rs:360-393 | a table scan always moves past its first line, even when it yields no table, and a single `|` line yields none |
| BlockText.ParseTableRow | crates/mdeck/src/parser/blocks.rs:395-401 | the row is split at `|` and each trimmed cell parsed, as the specification says |
| BlockText.CollectTableLines | crates/mdeck/src/parser/blocks.rs:361-375 | the loop collects the trimmed `|` lines and consumes one trailing blank line |
| BlockText.ParseRows | crates/mdeck/src/parser/blocks.rs:386-390 | the data rows are the parsed rows of the given lines, in order |
| BlockText.ParseTable | crates/mdeck/src/parser/blocks.rs:360-393 | the table, or none when fewer than two lines, and the next index are those of the specification |
| BlockParse.ParagraphSpan | crates/mdeck/src/parser/blocks.rs:585-610 | a paragraph takes every line up to the first line that stops it, and stops there |
| BlockParse.ParagraphText | crates/mdeck/src/parser/blocks.rs:605-608 | a paragraph's text is its trimmed lines joined with single spaces |
| BlockParse.ParseParagraph | crates/mdeck/src/parser/blocks.rs:581-614 | the loop returns the paragraph and the next index of the specification; run as written it requires that no line of the paragraph's span makes the list-start check of its stop test panic |
| BlockParse.PanicLineReaches | crates/mdeck/src/parser/blocks.rs:59-141 | a trimmed line of one non-ASCII character passes every earlier test and reaches the paragraph branch, whose stop test then calls the list-start check on it |
| BlockParse.StopTestSafe | crates/mdeck/src/parser/blocks.rs:585-602 | inside a paragraph's span that does not panic, the stop test never calls the list-start check on a panicking line |
| BlockParse.StepPanicsLine | crates/mdeck/src/parser/blocks.rs:59-141 | a step of the dispatch as written panics only on a line, at or after its own, that is one non-ASCII character once trimmed |
| BlockParse.ParseFromPanics | crates/mdeck/src/parser/blocks.rs:55-142 | when the loop as written panics, it panics at a step it reached, within the lines, whose dispatch panics because of such a line |
| BlockParse.AccentPanics | crates/mdeck/src/parser/blocks.rs:123 | the slide `é` makes the parse as written panic on its first line |
| BlockParse.StepAt | crates/mdeck/src/parser/blocks.rs:55-141 | one branch of the dispatch never moves the index backwards or past the end |
| BlockParse.ParseFromStep | crates/mdeck/src/parser/blocks.rs:55-142 | a run that reaches the end moves past every line it starts at, collecting each step's block in order |
| BlockParse.LeadingChar | crates/mdeck/src/parser/blocks.rs:147-157 | a rule line starts with `*` or `_`, and an ordered list start with a digit |
| BlockParse.StallKinds | crates/mdeck/src/parser/blocks.rs:55-141 | a line that stalls the loop is a paragraph line that a paragraph would not take, or an ordered list start that is not an ordered item |
| BlockParse.StepStays | crates/mdeck/src/parser/blocks.rs:131-141 | the step stays on its line exactly for such a paragraph line or such an ordered list start |
| BlockParse.StepStallsIff | crates/mdeck/src/parser/blocks.rs:55-141 | the line at the index stalls the loop exactly when it is a stall line |
| BlockParse.OrderedStep | crates/mdeck/src/parser/blocks.rs:131-136 | an ordered list start moves the index exactly when its line is an ordered item |
| BlockParse.ParseFromStalls | crates/mdeck/src/parser/blocks.rs:55-142 | when the loop stalls, it stalls on a stall line it reached |
| BlockParse.NoStallLineDone | crates/mdeck/src/parser/blocks.rs:50-145 | a slide without any stall line and without any line on which the list-start check panics is parsed to the end |
| BlockParse.HashTagStalls | crates/mdeck/src/parser/blocks.rs:80-84 | the slide `#tag` stalls the loop on its first line, because it is not a heading and a paragraph stops on its `#` |
| BlockParse.Dispatch | crates/mdeck/src/parser/blocks.rs:59-141 | the tests, in order, push the block and move to the index the specification gives; run as written it requires that the step does not panic |
| BlockParse.DispatchRest | crates/mdeck/src/parser/blocks.rs:104-141 | the tests from the blockquote test on push the block and move to the index the specification gives; run as written it requires that the step does not panic |
| BlockParse.Parse | crates/mdeck/src/parser/blocks.rs:50-145 | on a slide the loop finishes, neither stalling nor panicking, it returns the blocks of the specification |
| BlockParse.SafeStep | crates/mdeck/src/parser/blocks.rs:55-141 | the corrected step always moves forward, within the lines |
| BlockParse.SafeParseFrom | crates/mdeck/src/parser/blocks.rs:55-142 | the corrected loop yields at most one block per line |
| BlockParse.SafeAgrees | crates/mdeck/src/parser/blocks.rs:50-145 | wherever the loop as written finishes, the corrected loop yields the same blocks |
| BlockParse.StallLineKept | crates/mdeck/src/parser/blocks.rs:138-141 | in the corrected loop a stall line opens a paragraph whose text starts with it and takes the following lines up to the next stop |
| BlockParse.ForcedParagraphText | crates/mdeck/src/parser/blocks.rs:581-614 | a forced paragraph's text is its trimmed lines joined by spaces, starting with the first |
| BlockParse.ParseForcedParagraph | crates/mdeck/src/parser/blocks.rs:581-614 | the corrected paragraph loop, which takes the first line before testing for a stop, returns the paragraph of the specification |
| BlockParse.SafeDispatch | crates/mdeck/src/parser/blocks.rs:59-141 | one turn of the corrected loop is the step as written, falling back to a forced paragraph when that step stays put |
| BlockParse.SafeParse | crates/mdeck/src/parser/blocks.rs:50-145 | the corrected loop accepts every slide and returns the blocks of its specification |
| Splitter.SentinelNotBlank | crates/presemd/src/parser/splitter.rs:9 | the break marker is never mistaken for a blank line |
| Splitter.CrlfKeepsNewlines | crates/presemd/src/parser/splitter.rs:12 | replacing CRLF by LF keeps every line break |
| Splitter.NoCrUnchanged | crates/presemd/src/parser/splitter.rs:12 | a text without carriage returns is left as it is |
| Splitter.Skip | crates/presemd/src/parser/splitter.rs:41-45 | a breaking `---` consumes itself and at most the blank line after it, within the lines |
| Splitter.MarkSeparators | crates/presemd/src/parser/splitter.rs:17-52 | the first pass, pushing to and popping from its output, gives the lines of the line-by-line specification |
| Splitter.MarkKeepsFiltered | crates/presemd/src/parser/splitter.rs:20-52 | from any point, the first pass keeps every line that is not blank, not a `---` line and not a break |
| Splitter.MarkKeeps | crates/presemd/src/parser/splitter.rs:20-52 | the first pass only drops blank lines and `---` lines and only adds breaks: the other lines survive, in order |
| Splitter.MarkIdentity | crates/presemd/src/parser/splitter.rs:25-51 | without `---` lines the first pass copies every line |
| Splitter.DashBetweenBlanks | crates/presemd/src/parser/splitter.rs:184-190 | `Slide one`, a blank line, `---`, a blank line, `Slide two` become the two texts around one break |
| Splitter.CollapseBlankRuns | crates/presemd/src/parser/splitter.rs:54-78 | the counting loop gives the lines of the line-by-line specification |
| Splitter.CollapseInvariant | crates/presemd/src/parser/splitter.rs:56-78 | after every line the output has no three blank lines in a row and ends in exactly as many blank lines as the counter says, capped at two |
| Splitter.CollapseKeepsText | crates/presemd/src/parser/splitter.rs:54-78 | after the second pass no three blank lines follow each other, and the text lines are exactly those of its input, in order |
| Splitter.BlankRunBreaks | crates/presemd/src/parser/splitter.rs:175-181 | `Slide one`, three blank lines, `Slide two` become the two texts around one break |
| Splitter.Chunks | crates/presemd/src/parser/splitter.rs:80-87 | every piece cut at the breaks is trimmed |
| Splitter.Groups | crates/presemd/src/parser/splitter.rs:80-87 | the lines fall into at least one run between break markers; no run holds a marker, and the runs with markers between them give back the lines |
| Splitter.PiecesOfGroups | crates/presemd/src/parser/splitter.rs:80-87 | when `\0` occurs only inside break markers, cutting the joined lines at the marker gives, run by run, the lines of each run joined by newlines, padded only by the newlines next to the markers |
| Splitter.ChunksGroups | crates/presemd/src/parser/splitter.rs:80-87 | when `\0` occurs only inside break markers, there is one piece per run of lines between markers, and each piece is that run joined by newlines and trimmed |
| Splitter.TwoGroups | crates/presemd/src/parser/splitter.rs:80-87 | two marker-free runs with one marker between them are exactly two runs |
| Splitter.MarkFromNul | crates/presemd/src/parser/splitter.rs:17-52 | the first pass adds `\0` only inside the break markers it pushes |
| Splitter.CollapseNul | crates/presemd/src/parser/splitter.rs:54-78 | the second pass adds `\0` only inside the break markers it pushes |
| Splitter.FinalLinesNul | crates/presemd/src/parser/splitter.rs:7-78 | for a body without `\0`, every `\0` left after the first two passes belongs to a break marker, so the markers are the only cut points |
| Splitter.BlankRunSplits | crates/presemd/src/parser/splitter.rs:175-181 | two plain lines with three blank lines between them split into the two trimmed lines as two slides |
| Splitter.DashSplits | crates/presemd/src/parser/splitter.rs:184-190 | two plain lines with `---` between blank lines split into the two trimmed lines as two slides |
| Splitter.CombinedSplits | crates/presemd/src/parser/splitter.rs:216-222 | a `---` inside a run of blank lines gives one break, not two: the body splits into exactly the two slides |
| Splitter.DirectiveEmptyName | crates/presemd/src/parser/splitter.rs:162-168 | a directive's name before the colon may be empty |
| Splitter.DirectiveSpacedName | crates/presemd/src/parser/splitter.rs:162-168 | a space before the colon makes the line ordinary content |
| Splitter.SplitByHeadings | crates/presemd/src/parser/splitter.rs:103-110 | the slides appended for a piece are those of heading inference over the piece's lines |
| Splitter.InferHeadings | crates/presemd/src/parser/splitter.rs:104-156 | the loop appends exactly the slides of the line-by-line specification to the slides so far, the last slide included |
| Splitter.HeadingLine | crates/presemd/src/parser/splitter.rs:111-150 | one line of the loop keeps the pending text, the content flag, the fence state and the slides in step with one line of the specification |
| Splitter.TrackFence | crates/presemd/src/parser/splitter.rs:113-128 | an open fence closes on a run of its character at least as long as the opening run followed only by whitespace; a closed one opens on a line starting with three backticks or tildes, remembering the character and run length |
| Splitter.PushSlideShape | crates/presemd/src/parser/splitter.rs:133-136 | a slide pushed is trimmed and non-empty |
| Splitter.ScanSlides | crates/presemd/src/parser/splitter.rs:111-150 | every break adds exactly one slide, and every slide is trimmed and non-empty |
| Splitter.BreaksOnlyAtH1 | crates/presemd/src/parser/splitter.rs:131 | only lines starting with `# ` break; `##` headings and every other line never do |
| Splitter.HeadingSlidesShape | crates/presemd/src/parser/splitter.rs:104-156 | a piece gives trimmed, non-empty slides, at most one more than it has breaks and than it has `# ` lines |
| Splitter.NoContentNoBreak | crates/presemd/src/parser/splitter.rs:146-149 | blank lines and directives are not content, so until a content line nothing breaks |
| Splitter.OpenFenceNoBreak | crates/presemd/src/parser/splitter.rs:114-131 | once a fence opens, no later line breaks unless one closes it: a `#` comment in an unclosed code block never starts a slide |
| Splitter.H1IsContent | crates/presemd/src/parser/splitter.rs:131-149 | a `# ` line is itself content, so a break always leaves content behind it |
| Splitter.ContentPersists | crates/presemd/src/parser/splitter.rs:131-149 | after any content line the piece holds content to its end |
| Splitter.ContentGivesSlide | crates/presemd/src/parser/splitter.rs:152-155 | a piece with a content line gives exactly one slide more than it has breaks |
| Splitter.Split | crates/presemd/src/parser/splitter.rs:7-99 | the four passes give the slides of the specification |
| Splitter.SlidesOfShape | crates/presemd/src/parser/splitter.rs:89-98 | every slide of the deck is trimmed and non-empty |
| Splitter.SplitSlidesShape | crates/presemd/src/parser/splitter.rs:7-99 | every slide the splitter returns is trimmed and non-empty |
| Splitter.SlidesOfCount | crates/presemd/src/parser/splitter.rs:89-98 | a piece with a content line adds at least one slide, so a separator never merges two slides |
| Frontmatter.FirstClose | crates/presemd/src/parser/frontmatter.rs:43-45 | the line found is the first from the start position on that trims to `---`, and none is found only when there is none |
| Frontmatter.OffsetAtMost | crates/presemd/src/parser/frontmatter.rs:47-53 | because lines lose their carriage return, the offset computed for a line never passes where the line really starts |
| Frontmatter.ClosingOffset | crates/presemd/src/parser/frontmatter.rs:42-57 | an offset found lies within the text |
| Frontmatter.FindClosingDelimiter | crates/presemd/src/parser/frontmatter.rs:42-57 | the two nested loops return the offset of the specification: the summed lengths plus one of the lines before the first `---` line after line 0 |
| Frontmatter.OffsetOfLine | crates/presemd/src/parser/frontmatter.rs:47-53 | the inner loop stops at line `i` with each earlier line's length plus one added up: the offset of the specification |
| Frontmatter.LinesFromAll | crates/presemd/src/parser/frontmatter.rs:43-53 | the lines of the text from line `i` on are the lines of the text cut where line `i` starts |
| Frontmatter.OffsetExact | crates/presemd/src/parser/frontmatter.rs:47-53 | with LF endings only, the computed offset is exactly where the line starts |
| Frontmatter.ParseFrontmatterManual | crates/presemd/src/parser/frontmatter.rs:89-110 | the line loop gives the metadata of the line-by-line specification |
| Frontmatter.SetKeyField | crates/presemd/src/parser/frontmatter.rs:96-106 | a `key: value` pair sets the field of its own key and no other |
| Frontmatter.ReadLinesField | crates/presemd/src/parser/frontmatter.rs:91-108 | each field holds the value of the last line with its key; later lines win and unknown keys are ignored |
| Frontmatter.SplitAtFirstColon | crates/presemd/src/parser/frontmatter.rs:93-95 | a line splits at its first colon, so the value keeps any later colon, trimmed and without surrounding quotes |
| Frontmatter.UnknownLineIgnored | crates/presemd/src/parser/frontmatter.rs:93-106 | a line without a colon, or with an unknown key, leaves the metadata as it was |
| Frontmatter.ParseFrontmatterWith | crates/presemd/src/parser/frontmatter.rs:59-79 | the YAML reader's result is used when it succeeds, and the manual reader's otherwise |
| Frontmatter.StripBom | crates/presemd/src/parser/frontmatter.rs:5 | every leading byte-order mark is removed, and nothing else |
| Frontmatter.AfterOpening | crates/presemd/src/parser/frontmatter.rs:7-18 | there is a header exactly when the text starts with `---` and LF or CRLF, and what follows is the rest of the text |
| Frontmatter.Extract | crates/presemd/src/parser/frontmatter.rs:4-40 | the metadata and body are those of the specification |
| Frontmatter.NoHeaderAllBody | crates/presemd/src/parser/frontmatter.rs:7-24 | without an opening or a closing delimiter the text is all body, with only its byte-order marks removed, and the metadata is the default |
| Frontmatter.PlainTextUnchanged | crates/presemd/src/parser/frontmatter.rs:127-132 | a text that starts neither with a byte-order mark nor with `---` comes back unchanged as the body |
| Frontmatter.BodyAfterLines | crates/presemd/src/parser/frontmatter.rs:27-36 | the body starts on the line after the closing line |
| Frontmatter.FixedClosingOffset | crates/presemd/src/parser/frontmatter.rs:42-57 | the corrected offset lies within the text |
| Frontmatter.FixedBodyLines | crates/presemd/src/parser/frontmatter.rs:27-36 | with the corrected offset the body is exactly the lines after the closing `---`, whatever the line endings |
| Frontmatter.LfAgrees | crates/presemd/src/parser/frontmatter.rs:4-57 | with LF endings the extractor as written and the corrected one agree |
| Frontmatter.CrlfOffset | crates/presemd/src/parser/frontmatter.rs:47-53 | after one CRLF header line the offset as written is one short of where the `---` line starts; the corrected one is exact |
| Frontmatter.CrlfCloseLeaks | crates/presemd/src/parser/frontmatter.rs:47-53 | with CRLF endings and one header line, the body as written still starts with the closing `---` line |
| Frontmatter.CrlfFixedDropsClose | crates/presemd/src/parser/frontmatter.rs:27-36 | on the same text the corrected extractor returns only what follows the closing line |

## Left out

- Drawing: all egui painting and geometry is left out, since it is floating-point layout and painter calls. This covers text jobs, image rectangles, sizes and measurement, diagram node placement, list bullets and the positioning in every layout file. The layouts keep the selected `Block` rather than the inlines the source extracts from it.
- Time: `Instant`-based transition progress, completion and easing are left out. A transition finishes by an explicit `CompleteTransition` call.
- App input: toasts, frame-rate counting, theme and HUD toggles other than the grid's, fullscreen and viewport commands are left out. Key events arrive one per call rather than as a batch per frame.
- App.PresentationApp.constructor: takes each slide's maximum reveal step as a parameter instead of computing it from the parsed blocks. It requires a non-empty deck, because the program refuses to start on an empty one.
- Transition: both name maps are modelled, mdeck's `from_name` and presemd's copy without "spatial"; the presentation app uses presemd's.
- Frontmatter.ParseFrontmatterWith: the YAML library is a parameter, `string -> Option<Meta>`, treated as an unknown partial function. Only the fallback and delimiter logic are modelled.
- Frontmatter: offsets are counted in characters, not bytes. The byte-boundary panics that the CRLF offset error can cause when slicing are not modelled; the offset error itself is (see Findings).
- Frontmatter.FindClosingDelimiter: the inner offset loop is written over `0 .. i`, because the source's inner loop always stops there.
- Character classes: `is_alphanumeric` is ASCII-only here, since Unicode letter tables are out of scope. `is_whitespace` follows the Unicode White_Space list.
- Ast: heading levels are `nat`, not `u8`. Integer widths do not matter elsewhere, except the `usize` bound on highlight numbers, which is modelled.
- BlockList.ParseList: the source tests one list condition twice. The model tests it once, which behaves the same.
- BlockParse.Parse: requires that the loop as written finishes on the slide. On the stall lines described under Findings the source loops forever, and on a line of one non-ASCII character it panics; `ParseOutcome` names both cases, and `ParseFromPanics` and `ParseFromStalls` say where they happen.
- Diagram: a node's `label` field is named `caption`, because `label` is a reserved word in Dafny.
- Reveal.DrawList: only decides which items are drawn and threads the step counter. Marker text and painting are left out.
- Left out entirely: syntax highlighting, the image cache, theme constants, the command-line commands, configuration, packaging and file I/O. These are library calls, file system access or constants with no logic to prove.

## Findings

| source | as written | input that shows it | evidently intended | confidence | as-written member | corrected member |
|---|---|---|---|---|---|---|
| crates/mdeck/src/parser/blocks.rs:80-84, 131-141, 589-603 | `parse` rejects the line as a heading (or image, or ordered item), and the paragraph fallback stops at once on the same line, so the index never moves | the slide `#tag` (also `![x` and `1 . x`) | the line becomes a paragraph and parsing goes on | not executed | BlockParse.HashTagStalls | BlockParse.SafeParse |
| crates/mdeck/src/parser/blocks.rs:403-410 | `is_list_start` checks `line.len() < 2`, which counts bytes, then unwraps the second character | the line `é` (two bytes, one character) panics | a one-character line is never a list start | not executed | BlockList.ListStartPanicExample | BlockList.UnorderedMarkers |
| crates/presemd/src/parser/frontmatter.rs:47-53 | the offset of the closing `---` adds `len(line) + 1` per line, but `lines()` has already dropped the `\r` | `---\r\na\r\n---\r\nb` gives the body `---\r\nb` | the body is `b` | not executed | Frontmatter.CrlfCloseLeaks | Frontmatter.CrlfFixedDropsClose |
