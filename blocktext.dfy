/**
 * Blockquotes and tables (`parse_blockquote`, `parse_table`, `parse_table_row`), and the
 * space-joining accumulator that blockquotes and paragraphs share.
 */
module BlockText {
  import opened Wrappers
  import opened Strings
  import opened Ast
  import InlineParser

  // ---------------------------------------------------------------------------------------
  // Space-joined text
  // ---------------------------------------------------------------------------------------

  /** Appends one piece to a text being built: a space goes first unless the text is still empty. */
  function AppendSpaced(text: string, piece: string): string {
    (if text == [] then text else text + " ") + piece
  }

  /** The text built by appending each piece in turn to the empty text. */
  function Spaced(pieces: seq<string>): string {
    if pieces == [] then [] else AppendSpaced(Spaced(pieces[..|pieces| - 1]), pieces[|pieces| - 1])
  }

  /** The pieces from the first non-empty one on. */
  function DropLeadingEmpty(pieces: seq<string>): (r: seq<string>)
    ensures r == [] || r[0] != []
  {
    if pieces == [] then []
    else if pieces[0] == [] then DropLeadingEmpty(pieces[1..])
    else pieces
  }

  lemma {:induction false} DropLeadingEmptySnoc(ps: seq<string>, p: string)
    ensures DropLeadingEmpty(ps + [p]) ==
      if DropLeadingEmpty(ps) == [] then (if p == [] then [] else [p]) else DropLeadingEmpty(ps) + [p]
  {
    if ps != [] {
      assert (ps + [p])[1..] == ps[1..] + [p];
      DropLeadingEmptySnoc(ps[1..], p);
    }
  }

  lemma {:induction false} JoinSnoc(ps: seq<string>, p: string, sep: string)
    requires ps != []
    ensures Join(ps + [p], sep) == Join(ps, sep) + sep + p
  {
    if |ps| > 1 {
      assert (ps + [p])[1..] == ps[1..] + [p];
      JoinSnoc(ps[1..], p, sep);
    }
  }

  /**
   * Appending piece by piece joins the pieces with single spaces, except that empty pieces
   * met while the text is still empty leave no trace.
   */
  lemma {:induction false} SpacedJoin(pieces: seq<string>)
    ensures Spaced(pieces) == Join(DropLeadingEmpty(pieces), " ")
  {
    if pieces != [] {
      var ps, p := pieces[..|pieces| - 1], pieces[|pieces| - 1];
      assert pieces == ps + [p];
      SpacedJoin(ps);
      DropLeadingEmptySnoc(ps, p);
      var d := DropLeadingEmpty(ps);
      if d != [] {
        assert Join(d, " ")[..|d[0]|] == d[0];
        JoinSnoc(d, p, " ");
      }
    }
  }

  /** When no piece is empty, the text is the pieces joined with single spaces. */
  lemma SpacedNonEmpty(pieces: seq<string>)
    requires forall k :: 0 <= k < |pieces| ==> pieces[k] != []
    ensures Spaced(pieces) == Join(pieces, " ")
  {
    SpacedJoin(pieces);
  }

  // ---------------------------------------------------------------------------------------
  // Blockquotes
  // ---------------------------------------------------------------------------------------

  /** A blockquote line's text: what follows `> ` on the trimmed line, or nothing for a lone `>`. */
  function QuotePiece(line: string): Option<string> {
    var t := Trim(line);
    match StripPrefix(t, "> ")
    case Some(rest) => Some(rest)
    case None => if t == ">" then Some([]) else None
  }

  /** The first line at or after `i` that is not a blockquote line. */
  function QuoteEnd(lines: seq<string>, i: nat): (r: nat)
    requires i <= |lines|
    ensures i <= r <= |lines|
    ensures i < |lines| && QuotePiece(lines[i]).Some? ==> r > i
    decreases |lines| - i
  {
    if i == |lines| || QuotePiece(lines[i]).None? then i else QuoteEnd(lines, i + 1)
  }

  /** The texts of lines `a` to `b`. */
  function QuotePieces(lines: seq<string>, a: nat, b: nat): (r: seq<string>)
    requires a <= b <= |lines|
  {
    seq(b - a, k requires 0 <= k < b - a => QuotePiece(lines[a + k]).GetOr([]))
  }

  /** `parse_blockquote` as a function: the quote block and the index of the line after it. */
  function QuoteAt(lines: seq<string>, start: nat): (Block, nat)
    requires start <= |lines|
  {
    var e := QuoteEnd(lines, start);
    (BlockQuote(InlineParser.Parsed(Spaced(QuotePieces(lines, start, e)))), e)
  }

  /** The quote takes every line up to the first that is not a blockquote line, and stops there. */
  lemma {:induction false} QuoteEndSpan(lines: seq<string>, i: nat)
    requires i <= |lines|
    ensures forall k :: i <= k < QuoteEnd(lines, i) ==> QuotePiece(lines[k]).Some?
    ensures QuoteEnd(lines, i) == |lines| || QuotePiece(lines[QuoteEnd(lines, i)]).None?
    decreases |lines| - i
  {
    if i < |lines| && QuotePiece(lines[i]).Some? {
      QuoteEndSpan(lines, i + 1);
    }
  }

  /** The quote end seen from line `i`: here at a line that is not a quote line, otherwise from the next line. */
  lemma QuoteEndNext(lines: seq<string>, i: nat)
    requires i < |lines|
    ensures QuoteEnd(lines, i) == if QuotePiece(lines[i]).None? then i else QuoteEnd(lines, i + 1)
  {
  }

  /** One more quote line's text, appended to the spaced text of those before it. */
  lemma QuoteSnoc(lines: seq<string>, a: nat, b: nat)
    requires a <= b < |lines|
    ensures Spaced(QuotePieces(lines, a, b + 1)) == AppendSpaced(Spaced(QuotePieces(lines, a, b)), QuotePiece(lines[b]).GetOr([]))
  {
    var pieces := QuotePieces(lines, a, b + 1);
    assert pieces[..|pieces| - 1] == QuotePieces(lines, a, b);
  }

  /** `parse_blockquote`: collects the quote lines' texts into one string, then parses it. */
  method ParseBlockquote(lines: seq<string>, start: nat) returns (block: Block, end: nat)
    requires start <= |lines|
    ensures block == QuoteAt(lines, start).0
    ensures end == QuoteAt(lines, start).1
  {
    var text: string := [];
    var i := start;
    ghost var quoteEnd := QuoteEnd(lines, start);
    assert QuotePieces(lines, start, start) == [];
    while i < |lines|
      invariant start <= i <= |lines|
      invariant quoteEnd == QuoteEnd(lines, i)
      invariant text == Spaced(QuotePieces(lines, start, i))
    {
      var trimmed := Trim(lines[i]);
      QuoteEndNext(lines, i);
      QuoteSnoc(lines, start, i);
      match StripPrefix(trimmed, "> ") {
        case Some(rest) =>
          if text != [] {
            text := text + " ";
          }
          text := text + rest;
          i := i + 1;
        case None =>
          if trimmed == ">" {
            if text != [] {
              text := text + " ";
            }
            i := i + 1;
          } else {
            break;
          }
      }
    }
    var inlines := InlineParser.Parse(text);
    block := BlockQuote(inlines);
    end := i;
  }

  // ---------------------------------------------------------------------------------------
  // Tables
  // ---------------------------------------------------------------------------------------

  predicate TableLine(line: string) {
    StartsWith(Trim(line), "|")
  }

  /** The first line at or after `i` that does not start with `|` once trimmed. */
  function TableStop(lines: seq<string>, i: nat): (r: nat)
    requires i <= |lines|
    ensures i <= r <= |lines|
    ensures i < |lines| && TableLine(lines[i]) ==> r > i
    decreases |lines| - i
  {
    if i == |lines| || !TableLine(lines[i]) then i else TableStop(lines, i + 1)
  }

  /** Where the table scan stops: one blank line after the table lines is consumed. */
  function TableEnd(lines: seq<string>, start: nat): (r: nat)
    requires start <= |lines|
  {
    var s := TableStop(lines, start);
    if s < |lines| && Trim(lines[s]) == [] then s + 1 else s
  }

  /** Lines `a` to `b`, trimmed. */
  function TrimmedLines(lines: seq<string>, a: nat, b: nat): (r: seq<string>)
    requires a <= b <= |lines|
  {
    seq(b - a, k requires 0 <= k < b - a => Trim(lines[a + k]))
  }

  /** One more line, trimmed, at the end. */
  lemma TrimmedLinesSnoc(lines: seq<string>, a: nat, b: nat)
    requires a <= b < |lines|
    ensures TrimmedLines(lines, a, b + 1) == TrimmedLines(lines, a, b) + [Trim(lines[b])]
  {
    var tl := TrimmedLines(lines, a, b + 1);
    assert tl[..b - a] == TrimmedLines(lines, a, b);
  }

  /** One more line, trimmed, appended to the spaced text of the lines before it. */
  lemma SpacedSnoc(lines: seq<string>, a: nat, b: nat)
    requires a <= b < |lines|
    ensures Spaced(TrimmedLines(lines, a, b + 1)) == AppendSpaced(Spaced(TrimmedLines(lines, a, b)), Trim(lines[b]))
  {
    TrimmedLinesSnoc(lines, a, b);
    var tl := TrimmedLines(lines, a, b + 1);
    assert tl[..|tl| - 1] == TrimmedLines(lines, a, b);
  }

  /** The trimmed cell texts of a table row: outer pipes removed, then split on `|`. */
  function TableCells(line: string): seq<string> {
    var cells := SplitChar(TrimMatches(Trim(line), '|'), '|');
    seq(|cells|, k requires 0 <= k < |cells| => Trim(cells[k]))
  }

  /** Each text parsed into inlines, in order. */
  function ParsedEach(texts: seq<string>): (r: seq<seq<Inline>>)
    ensures |r| == |texts|
  {
    if texts == [] then []
    else ParsedEach(texts[..|texts| - 1]) + [InlineParser.Parsed(texts[|texts| - 1])]
  }

  /** One more text parsed. */
  lemma ParsedEachSnoc(texts: seq<string>, k: nat)
    requires k < |texts|
    ensures ParsedEach(texts[..k + 1]) == ParsedEach(texts[..k]) + [InlineParser.Parsed(texts[k])]
  {
    assert texts[..k + 1][..k] == texts[..k];
  }

  /** `parse_table_row`: the cells, each parsed into inlines. */
  function TableRow(line: string): (r: seq<seq<Inline>>) {
    ParsedEach(TableCells(line))
  }

  /** The rows of the given lines, in order. */
  function RowsOf(ls: seq<string>): (r: seq<seq<seq<Inline>>>)
    ensures |r| == |ls|
  {
    if ls == [] then [] else RowsOf(ls[..|ls| - 1]) + [TableRow(ls[|ls| - 1])]
  }

  /**
   * `parse_table` as a function: with at least two table lines, the first gives the headers,
   * the second (the separator) is skipped and the others give the rows.
   */
  function TableAt(lines: seq<string>, start: nat): (Option<Block>, nat)
    requires start <= |lines|
  {
    var tl := TrimmedLines(lines, start, TableStop(lines, start));
    var table :=
      if |tl| < 2 then None
      else Some(Table(TableRow(tl[0]), RowsOf(tl[2..])));
    (table, TableEnd(lines, start))
  }

  /** A row has one cell more than there are `|` inside its outer pipes. */
  lemma TableRowCells(line: string)
    ensures |TableRow(line)| == Count(TrimMatches(Trim(line), '|'), '|') + 1
  {
    SplitCharCount(TrimMatches(Trim(line), '|'), '|');
  }

  /** The table takes every `|` line up to the first other line, and stops there. */
  lemma {:induction false} TableStopSpan(lines: seq<string>, i: nat)
    requires i <= |lines|
    ensures forall k :: i <= k < TableStop(lines, i) ==> TableLine(lines[k])
    ensures TableStop(lines, i) == |lines| || !TableLine(lines[TableStop(lines, i)])
    decreases |lines| - i
  {
    if i < |lines| && TableLine(lines[i]) {
      TableStopSpan(lines, i + 1);
    }
  }

  /**
   * A table scan started on a `|` line always moves past it, even when it yields no table;
   * a single `|` line yields none.
   */
  lemma TableAdvances(lines: seq<string>, start: nat)
    requires start < |lines| && TableLine(lines[start])
    ensures TableAt(lines, start).1 > start
    ensures TableStop(lines, start) == start + 1 ==> TableAt(lines, start).0.None?
  {
  }

  /** `parse_table_row`: splits the row and parses each trimmed cell. */
  method ParseTableRow(line: string) returns (row: seq<seq<Inline>>)
    ensures row == TableRow(line)
  {
    var cells := TableCells(line);
    row := [];
    var k := 0;
    while k < |cells|
      invariant k <= |cells|
      invariant row == ParsedEach(cells[..k])
    {
      var inlines := InlineParser.Parse(cells[k]);
      ParsedEachSnoc(cells, k);
      row := row + [inlines];
      k := k + 1;
    }
    assert cells[..k] == cells;
  }

  /** The line loop of `parse_table`: the trimmed `|` lines and the index after the scan. */
  method CollectTableLines(lines: seq<string>, start: nat) returns (tableLines: seq<string>, end: nat)
    requires start <= |lines|
    ensures tableLines == TrimmedLines(lines, start, TableStop(lines, start))
    ensures end == TableEnd(lines, start)
  {
    tableLines := [];
    var i := start;
    ghost var stop := TableStop(lines, start);
    while i < |lines|
      invariant start <= i <= |lines|
      invariant stop == TableStop(lines, i)
      invariant tableLines == TrimmedLines(lines, start, i)
    {
      var trimmed := Trim(lines[i]);
      if StartsWith(trimmed, "|") {
        assert TrimmedLines(lines, start, i + 1) == tableLines + [trimmed];
        tableLines := tableLines + [trimmed];
        i := i + 1;
      } else if trimmed == [] {
        i := i + 1;
        break;
      } else {
        break;
      }
    }
    end := i;
  }

  /** The data rows of a table: `parse_table_row` mapped over the given lines. */
  method ParseRows(ls: seq<string>) returns (rows: seq<seq<seq<Inline>>>)
    ensures rows == RowsOf(ls)
  {
    rows := [];
    var k := 0;
    while k < |ls|
      invariant k <= |ls|
      invariant rows == RowsOf(ls[..k])
    {
      var row := ParseTableRow(ls[k]);
      assert ls[..k + 1][..k] == ls[..k];
      rows := rows + [row];
      k := k + 1;
    }
    assert ls[..k] == ls;
  }

  /** `parse_table`: collects the `|` lines, then builds the headers and rows. */
  method ParseTable(lines: seq<string>, start: nat) returns (table: Option<Block>, end: nat)
    requires start <= |lines|
    ensures table == TableAt(lines, start).0
    ensures end == TableAt(lines, start).1
  {
    var tableLines;
    tableLines, end := CollectTableLines(lines, start);
    if |tableLines| < 2 {
      return None, end;
    }
    var headers := ParseTableRow(tableLines[0]);
    var rows := ParseRows(tableLines[2..]);
    table := Some(Table(headers, rows));
  }
}
