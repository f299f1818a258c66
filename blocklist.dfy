/**
 * Lists (`is_list_start`, `is_ordered_list_start`, `extract_*_item`, `line_indent`,
 * `parse_list`, `collect_children`): items are nested by the byte indentation of their lines.
 */
module BlockList {
  import opened Wrappers
  import opened Strings
  import opened Ast
  import InlineParser
  import Seqs

  // ---------------------------------------------------------------------------------------
  // Item lines
  // ---------------------------------------------------------------------------------------

  /**
   * `is_list_start` as written: it checks the BYTE length before taking the second character,
   * so a line of one multi-byte character passes the check and the lookup of its second
   * character panics. `None` stands for that panic.
   */
  function ListStartAsWritten(line: string): Option<bool> {
    if ByteLen(line) < 2 then Some(false)
    else if |line| < 2 then None
    else Some((line[0] == '-' || line[0] == '+' || line[0] == '*') && line[1] == ' ')
  }

  /** `is_list_start` with the length check on characters: a marker `-`, `+` or `*` and a space. */
  predicate IsListStart(line: string) {
    |line| >= 2 && (line[0] == '-' || line[0] == '+' || line[0] == '*') && line[1] == ' '
  }

  /**
   * The written check panics exactly on a line of one non-ASCII character, and agrees with
   * the corrected one everywhere else.
   */
  lemma ListStartPanicsExactly(line: string)
    ensures ListStartAsWritten(line).None? <==> |line| == 1 && line[0] >= '\U{80}'
    ensures ListStartAsWritten(line).Some? ==> ListStartAsWritten(line).value == IsListStart(line)
  {
    if |line| == 1 {
      assert ByteLen(line) == Utf8Len(line[0]) + ByteLen(line[1..]);
      assert line[1..] == [];
    }
  }

  /** A trimmed line holding only `é` makes the written check panic. */
  lemma ListStartPanicExample()
    ensures ListStartAsWritten("é") == None
  {
    ListStartPanicsExactly("é");
  }

  /** A trimmed line on which `is_list_start` as written panics. */
  predicate PanicLine(t: string) {
    ListStartAsWritten(t).None?
  }

  /**
   * `is_list_start`: as written (`corrected` false) it measures the line in bytes and its
   * callers must keep it off the lines where it panics; corrected, it measures characters and
   * takes every line.
   */
  method ListStart(line: string, corrected: bool) returns (b: bool)
    requires corrected || !PanicLine(line)
    ensures b == IsListStart(line)
    ensures !corrected ==> b == ListStartAsWritten(line).value
  {
    ListStartPanicsExactly(line);
    if (if corrected then |line| else ByteLen(line)) < 2 {
      return false;
    }
    b := (line[0] == '-' || line[0] == '+' || line[0] == '*') && line[1] == ' ';
  }

  /** `is_ordered_list_start`: digits (once trimmed) before the first `. `, which is not at the start. */
  predicate IsOrderedListStart(line: string) {
    match Find(line, ". ")
    case None => false
    case Some(d) => AllDigits(Trim(line[..d])) && d > 0
  }

  /** The text and marker of an item line. */
  datatype Extracted = Extracted(text: string, marker: ListMarker)

  /** `extract_unordered_item`. */
  function ExtractUnordered(line: string): Option<Extracted> {
    if ByteLen(line) < 2 || |line| < 2 || line[1] != ' ' then None
    else if line[0] == '-' then Some(Extracted(line[2..], Static))
    else if line[0] == '+' then Some(Extracted(line[2..], NextStep))
    else if line[0] == '*' then Some(Extracted(line[2..], WithPrev))
    else None
  }

  /** `extract_ordered_item`: unlike `is_ordered_list_start`, the digits are not trimmed. */
  function ExtractOrdered(line: string): Option<Extracted> {
    match Find(line, ". ")
    case None => None
    case Some(d) =>
      if d == 0 || !AllDigits(line[..d]) then None
      else Some(Extracted(line[d + 2..], Ordered))
  }

  /** `extract_any_list_item`. */
  function ExtractAny(line: string): Option<Extracted> {
    if ExtractUnordered(line).Some? then ExtractUnordered(line) else ExtractOrdered(line)
  }

  /**
   * `-`, `+` and `*` items are static, next-step and with-previous items; the item text follows
   * the marker and its space; a line is an unordered item exactly when it is a list start.
   */
  lemma UnorderedMarkers(line: string)
    ensures ExtractUnordered(line).Some? <==> IsListStart(line)
    ensures ExtractUnordered(line).Some? ==>
      ExtractUnordered(line).value.text == line[2..] &&
      ExtractUnordered(line).value.marker ==
        (if line[0] == '-' then Static else if line[0] == '+' then NextStep else WithPrev)
  {
  }

  /** An ordered item is digits, `. ` and the text; every line it accepts is an ordered list start. */
  lemma OrderedMarker(line: string)
    ensures ExtractOrdered(line).Some? ==>
      var d := Find(line, ". ").value;
      0 < d && AllDigits(line[..d]) && ExtractOrdered(line).value == Extracted(line[d + 2..], Ordered)
    ensures ExtractOrdered(line).Some? ==> IsOrderedListStart(line)
  {
    if ExtractOrdered(line).Some? {
      var d := Find(line, ". ").value;
      AllDigitsTrim(line[..d]);
    }
  }

  /** Trimming a run of digits changes nothing. */
  lemma AllDigitsTrim(s: string)
    requires AllDigits(s)
    ensures Trim(s) == s
  {
    if s != [] {
      assert !IsWhitespace(s[0]) && !IsWhitespace(s[|s| - 1]);
      TrimStartShape(s);
      TrimEndShape(TrimStart(s));
    }
  }

  /**
   * `1 . x` is an ordered list start, because the digits are trimmed there, but not an ordered
   * item, because they are not trimmed here.
   */
  lemma OrderedStartWithoutItem()
    ensures IsOrderedListStart("1 . x") && ExtractOrdered("1 . x").None?
  {
    var line := "1 . x";
    assert line[0..2][0] == '1' && line[1..3][0] == ' ' && line[2..4] == ". ";
    assert Find(line, ". ") == Some(2);
    assert line[..2] == "1 ";
    assert line[..2][1] == ' ';
    TrimEdges(line[..2]);
    TrimStartShape(line[..2]);
    TrimEndShape(TrimStart(line[..2]));
    assert Trim(line[..2]) == "1";
  }

  /** `line_indent`: the bytes of leading whitespace (a tab counts as one). */
  function LineIndent(line: string): nat {
    if line != [] && IsWhitespace(line[0]) then Utf8Len(line[0]) + LineIndent(line[1..]) else 0
  }

  /** The indent is the byte length of the leading whitespace; it is 0 exactly when there is none. */
  lemma {:induction false} LineIndentIs(line: string)
    ensures LineIndent(line) == ByteLen(line) - ByteLen(TrimStart(line))
    ensures LineIndent(line) == 0 <==> line == [] || !IsWhitespace(line[0])
  {
    if line != [] && IsWhitespace(line[0]) {
      LineIndentIs(line[1..]);
    }
  }

  // ---------------------------------------------------------------------------------------
  // The item tree
  // ---------------------------------------------------------------------------------------

  /** The number of items at all depths. */
  function Size(items: seq<ListItem>): nat
    decreases items
  {
    if items == [] then 0 else 1 + Size(items[0].children) + Size(items[1..])
  }

  lemma {:induction false} SizeAppend(a: seq<ListItem>, b: seq<ListItem>)
    ensures Size(a + b) == Size(a) + Size(b)
    decreases a
  {
    if a == [] {
      assert a + b == b;
    } else {
      assert (a + b)[0] == a[0];
      assert (a + b)[1..] == a[1..] + b;
      SizeAppend(a[1..], b);
    }
  }

  /** The number of non-blank lines. */
  function NonBlankCount(ls: seq<string>): nat {
    if ls == [] then 0 else (if IsBlank(ls[0]) then 0 else 1) + NonBlankCount(ls[1..])
  }

  lemma {:induction false} NonBlankAppend(a: seq<string>, b: seq<string>)
    ensures NonBlankCount(a + b) == NonBlankCount(a) + NonBlankCount(b)
  {
    if a == [] {
      assert a + b == b;
    } else {
      assert (a + b)[0] == a[0];
      assert (a + b)[1..] == a[1..] + b;
      NonBlankAppend(a[1..], b);
    }
  }

  /** `lines[i..j]` as `[lines[i]] + lines[i + 1..j]`, counted. */
  lemma NonBlankFirst(lines: seq<string>, i: nat, j: nat)
    requires i < j <= |lines|
    ensures NonBlankCount(lines[i..j]) == (if IsBlank(lines[i]) then 0 else 1) + NonBlankCount(lines[i + 1..j])
  {
    assert lines[i..j][0] == lines[i];
    assert lines[i..j][1..] == lines[i + 1..j];
  }

  lemma NonBlankSplit(lines: seq<string>, i: nat, j: nat, k: nat)
    requires i <= j <= k <= |lines|
    ensures NonBlankCount(lines[i..k]) == NonBlankCount(lines[i..j]) + NonBlankCount(lines[j..k])
  {
    assert lines[i..k] == lines[i..j] + lines[j..k];
    NonBlankAppend(lines[i..j], lines[j..k]);
  }

  /**
   * `collect_children` as a function: from line `i`, blank lines are skipped; each line
   * indented deeper than `parent` that is an item becomes a child, and the lines after it
   * indented deeper still become its own children; the scan stops at the first other line.
   */
  function Children(lines: seq<string>, i: nat, parent: nat): (r: (seq<ListItem>, nat))
    requires i <= |lines|
    ensures i <= r.1 <= |lines|
    decreases |lines| - i, 1
  {
    if i == |lines| then ([], i)
    else if IsBlank(lines[i]) then Children(lines, i + 1, parent)
    else ChildAt(lines, i, parent)
  }

  /** The scan at a non-blank line: an item deeper than the parent, with its children, then the rest. */
  function ChildAt(lines: seq<string>, i: nat, parent: nat): (r: (seq<ListItem>, nat))
    requires i < |lines|
    ensures i <= r.1 <= |lines|
    decreases |lines| - i, 0
  {
    var indent := LineIndent(lines[i]);
    if indent <= parent then ([], i)
    else match ExtractAny(Trim(lines[i]))
      case None => ([], i)
      case Some(x) =>
        var sub := Children(lines, i + 1, indent);
        var rest := Children(lines, sub.1, parent);
        ([ListItem(x.marker, InlineParser.Parsed(x.text), sub.0)] + rest.0, rest.1)
  }

  /** Every non-blank line the children scan consumes becomes exactly one item of the tree. */
  lemma {:induction false} ChildrenCount(lines: seq<string>, i: nat, parent: nat)
    requires i <= |lines|
    ensures Size(Children(lines, i, parent).0) == NonBlankCount(lines[i..Children(lines, i, parent).1])
    decreases |lines| - i
  {
    if i == |lines| {
    } else if IsBlank(lines[i]) {
      var r := Children(lines, i + 1, parent);
      ChildrenCount(lines, i + 1, parent);
      NonBlankFirst(lines, i, r.1);
    } else {
      var indent := LineIndent(lines[i]);
      if indent > parent && ExtractAny(Trim(lines[i])).Some? {
        var x := ExtractAny(Trim(lines[i])).value;
        var sub := Children(lines, i + 1, indent);
        var rest := Children(lines, sub.1, parent);
        var item := ListItem(x.marker, InlineParser.Parsed(x.text), sub.0);
        ChildrenCount(lines, i + 1, indent);
        ChildrenCount(lines, sub.1, parent);
        assert ([item] + rest.0)[0] == item;
        assert ([item] + rest.0)[1..] == rest.0;
        NonBlankFirst(lines, i, rest.1);
        NonBlankSplit(lines, i + 1, sub.1, rest.1);
      }
    }
  }

  /**
   * The children scan stops at the end, or at a non-blank line that is not indented deeper
   * than the parent or is not an item.
   */
  lemma {:induction false} ChildrenStop(lines: seq<string>, i: nat, parent: nat)
    requires i <= |lines|
    ensures var e := Children(lines, i, parent).1;
      e == |lines| ||
      (!IsBlank(lines[e]) && (LineIndent(lines[e]) <= parent || ExtractAny(Trim(lines[e])).None?))
    decreases |lines| - i
  {
    if i < |lines| {
      if IsBlank(lines[i]) {
        ChildrenStop(lines, i + 1, parent);
      } else if LineIndent(lines[i]) > parent && ExtractAny(Trim(lines[i])).Some? {
        var sub := Children(lines, i + 1, LineIndent(lines[i]));
        ChildrenStop(lines, sub.1, parent);
      }
    }
  }

  /** `collect_children`: a loop over the lines that recurses for each item's own children. */
  method CollectChildren(lines: seq<string>, start: nat, parent: nat) returns (children: seq<ListItem>, end: nat)
    requires start <= |lines|
    ensures children == Children(lines, start, parent).0
    ensures end == Children(lines, start, parent).1
    decreases |lines| - start, 1
  {
    children := [];
    var i := start;
    ghost var total := Children(lines, start, parent);
    while i < |lines|
      invariant start <= i <= |lines|
      invariant total.0 == children + Children(lines, i, parent).0
      invariant total.1 == Children(lines, i, parent).1
    {
      if IsBlank(lines[i]) {
        ChildrenBlank(lines, i, parent);
        i := i + 1;
      } else {
        var item, next := CollectItem(lines, i, parent);
        if item.None? {
          break;
        }
        Seqs.AppendAssoc(children, [item.value], Children(lines, next, parent).0);
        children := children + [item.value];
        i := next;
      }
    }
    assert Children(lines, i, parent) == ([], i);
    assert children + [] == children;
    end := i;
  }

  /**
   * One non-blank line of `collect_children`: no item when the scan stops there, otherwise the
   * item with its own children and the line after them.
   */
  method CollectItem(lines: seq<string>, i: nat, parent: nat) returns (item: Option<ListItem>, next: nat)
    requires i < |lines| && !IsBlank(lines[i])
    ensures item.None? ==> Children(lines, i, parent) == ([], i)
    ensures item.Some? ==> i < next <= |lines|
    ensures item.Some? ==> Children(lines, i, parent).0 == [item.value] + Children(lines, next, parent).0
    ensures item.Some? ==> Children(lines, i, parent).1 == Children(lines, next, parent).1
    decreases |lines| - i, 0
  {
    var indent := LineIndent(lines[i]);
    var extracted := ExtractAny(Trim(lines[i]));
    if indent <= parent || extracted.None? {
      ChildrenStopHere(lines, i, parent);
      return None, i;
    }
    var x := extracted.value;
    var inlines := InlineParser.Parse(x.text);
    var sub;
    sub, next := CollectChildren(lines, i + 1, indent);
    item := Some(ListItem(x.marker, inlines, sub));
    ChildrenItem(lines, i, parent, item.value, next);
  }

  /** A blank line is passed over. */
  lemma ChildrenBlank(lines: seq<string>, i: nat, parent: nat)
    requires i < |lines| && IsBlank(lines[i])
    ensures Children(lines, i, parent) == Children(lines, i + 1, parent)
  {
  }

  /** A line not indented deeper than the parent, or not an item, ends the scan. */
  lemma ChildrenStopHere(lines: seq<string>, i: nat, parent: nat)
    requires i < |lines| && !IsBlank(lines[i])
    requires LineIndent(lines[i]) <= parent || ExtractAny(Trim(lines[i])).None?
    ensures Children(lines, i, parent) == ([], i)
  {
  }

  /** An item line becomes the next child, with the deeper lines after it as its own children. */
  lemma ChildrenItem(lines: seq<string>, i: nat, parent: nat, item: ListItem, next: nat)
    requires i < |lines| && !IsBlank(lines[i]) && LineIndent(lines[i]) > parent
    requires ExtractAny(Trim(lines[i])).Some?
    requires var x, sub := ExtractAny(Trim(lines[i])).value, Children(lines, i + 1, LineIndent(lines[i]));
      item == ListItem(x.marker, InlineParser.Parsed(x.text), sub.0) && next == sub.1
    ensures Children(lines, i, parent).0 == [item] + Children(lines, next, parent).0
    ensures Children(lines, i, parent).1 == Children(lines, next, parent).1
  {
  }

  // ---------------------------------------------------------------------------------------
  // The list
  // ---------------------------------------------------------------------------------------

  /** The first non-blank line at or after `j`. */
  function NextNonBlank(lines: seq<string>, j: nat): (r: nat)
    requires j <= |lines|
    ensures j <= r <= |lines|
    ensures r < |lines| ==> !IsBlank(lines[r])
    decreases |lines| - j
  {
    if j < |lines| && IsBlank(lines[j]) then NextNonBlank(lines, j + 1) else j
  }

  lemma {:induction false} NextNonBlankCount(lines: seq<string>, j: nat)
    requires j <= |lines|
    ensures NonBlankCount(lines[j..NextNonBlank(lines, j)]) == 0
    decreases |lines| - j
  {
    if j < |lines| && IsBlank(lines[j]) {
      NextNonBlankCount(lines, j + 1);
      NonBlankFirst(lines, j, NextNonBlank(lines, j));
    }
  }

  /** The last item with one more child; nothing when there is no item yet. */
  function AdoptChild(items: seq<ListItem>, child: ListItem): (r: seq<ListItem>)
    ensures |r| == |items|
  {
    if items == [] then []
    else
      var last := items[|items| - 1];
      items[..|items| - 1] + [last.(children := last.children + [child])]
  }

  lemma AdoptChildSize(items: seq<ListItem>, child: ListItem)
    requires items != []
    ensures Size(AdoptChild(items, child)) == Size(items) + Size([child])
  {
    var init, last := items[..|items| - 1], items[|items| - 1];
    var last' := last.(children := last.children + [child]);
    assert items == init + [last];
    SizeAppend(init, [last]);
    SizeAppend(init, [last']);
    SizeAppend(last.children, [child]);
    assert [last'][1..] == [] && [last][1..] == [];
  }

  /**
   * `parse_list` as a function, from line `i` with the items found so far. A blank line is
   * passed over when the next non-blank line starts an item of either kind; a top-level line
   * must be an item of the list's kind and takes the deeper lines after it as children; an
   * indented item line becomes a child of the last item, and is lost when there is none.
   */
  function ListFrom(lines: seq<string>, i: nat, ordered: bool, items: seq<ListItem>): (r: (seq<ListItem>, nat))
    requires i <= |lines|
    ensures i <= r.1 <= |lines|
    decreases |lines| - i
  {
    if i == |lines| then (items, i)
    else if IsBlank(lines[i]) then
      var j := NextNonBlank(lines, i + 1);
      if j < |lines| && (IsListStart(Trim(lines[j])) || IsOrderedListStart(Trim(lines[j]))) then
        ListFrom(lines, j, ordered, items)
      else (items, i)
    else
      var t := Trim(lines[i]);
      if LineIndent(lines[i]) == 0 then
        match (if ordered then ExtractOrdered(t) else ExtractUnordered(t))
        case None => (items, i)
        case Some(x) =>
          var ch := Children(lines, i + 1, 0);
          ListFrom(lines, ch.1, ordered, items + [ListItem(x.marker, InlineParser.Parsed(x.text), ch.0)])
      else
        match ExtractAny(t)
        case None => (items, i)
        case Some(x) =>
          ListFrom(lines, i + 1, ordered, AdoptChild(items, ListItem(x.marker, InlineParser.Parsed(x.text), [])))
  }

  /**
   * `parse_list` as written panics: it passes over the same lines as `ListFrom` until the
   * look-ahead after a blank line lands on a line on which `is_list_start` panics.
   */
  predicate ListPanics(lines: seq<string>, i: nat, ordered: bool)
    requires i <= |lines|
    decreases |lines| - i
  {
    if i == |lines| then false
    else if IsBlank(lines[i]) then
      var j := NextNonBlank(lines, i + 1);
      if j == |lines| then false
      else if PanicLine(Trim(lines[j])) then true
      else if IsListStart(Trim(lines[j])) || IsOrderedListStart(Trim(lines[j])) then ListPanics(lines, j, ordered)
      else false
    else
      var t := Trim(lines[i]);
      if LineIndent(lines[i]) == 0 then
        if (if ordered then ExtractOrdered(t) else ExtractUnordered(t)).None? then false
        else ListPanics(lines, Children(lines, i + 1, 0).1, ordered)
      else if ExtractAny(t).None? then false
      else ListPanics(lines, i + 1, ordered)
  }

  /** A list panics only on a line, after its first, on which `is_list_start` panics. */
  lemma {:induction false} ListPanicsLine(lines: seq<string>, i: nat, ordered: bool)
    requires i <= |lines| && ListPanics(lines, i, ordered)
    ensures exists k :: i < k < |lines| && PanicLine(Trim(lines[k]))
    decreases |lines| - i
  {
    if IsBlank(lines[i]) {
      var j := NextNonBlank(lines, i + 1);
      if !PanicLine(Trim(lines[j])) {
        ListPanicsLine(lines, j, ordered);
      }
    } else if LineIndent(lines[i]) == 0 {
      ListPanicsLine(lines, Children(lines, i + 1, 0).1, ordered);
    } else {
      ListPanicsLine(lines, i + 1, ordered);
    }
  }

  /** The list block that starts at `start`, and the index after it. */
  function ListAt(lines: seq<string>, start: nat, ordered: bool): (Block, nat)
    requires start <= |lines|
  {
    var r := ListFrom(lines, start, ordered, []);
    (List(ordered, r.0), r.1)
  }

  /** Once there is an item, every non-blank line the list consumes becomes exactly one item. */
  lemma {:induction false} ListFromCount(lines: seq<string>, i: nat, ordered: bool, items: seq<ListItem>)
    requires i <= |lines|
    requires items != []
    ensures Size(ListFrom(lines, i, ordered, items).0) ==
      Size(items) + NonBlankCount(lines[i..ListFrom(lines, i, ordered, items).1])
    decreases |lines| - i, 1
  {
    if i == |lines| {
    } else if IsBlank(lines[i]) {
      ListFromCountBlank(lines, i, ordered, items);
    } else if LineIndent(lines[i]) == 0 {
      ListFromCountTop(lines, i, ordered, items);
    } else {
      ListFromCountNested(lines, i, ordered, items);
    }
  }

  lemma {:induction false} ListFromCountBlank(lines: seq<string>, i: nat, ordered: bool, items: seq<ListItem>)
    requires i < |lines| && IsBlank(lines[i])
    requires items != []
    ensures Size(ListFrom(lines, i, ordered, items).0) ==
      Size(items) + NonBlankCount(lines[i..ListFrom(lines, i, ordered, items).1])
    decreases |lines| - i, 0
  {
    var j := NextNonBlank(lines, i + 1);
    ListFromBlank(lines, i, ordered, items);
    if j < |lines| && (IsListStart(Trim(lines[j])) || IsOrderedListStart(Trim(lines[j]))) {
      var e := ListFrom(lines, j, ordered, items).1;
      ListFromCount(lines, j, ordered, items);
      NextNonBlankCount(lines, i + 1);
      NonBlankFirst(lines, i, e);
      NonBlankSplit(lines, i + 1, j, e);
    }
  }

  lemma {:induction false} ListFromCountTop(lines: seq<string>, i: nat, ordered: bool, items: seq<ListItem>)
    requires i < |lines| && !IsBlank(lines[i]) && LineIndent(lines[i]) == 0
    requires items != []
    ensures Size(ListFrom(lines, i, ordered, items).0) ==
      Size(items) + NonBlankCount(lines[i..ListFrom(lines, i, ordered, items).1])
    decreases |lines| - i, 0
  {
    var t := Trim(lines[i]);
    var ex := if ordered then ExtractOrdered(t) else ExtractUnordered(t);
    ListFromTop(lines, i, ordered, items);
    if ex.Some? {
      var x := ex.value;
      var ch := Children(lines, i + 1, 0);
      var item := ListItem(x.marker, InlineParser.Parsed(x.text), ch.0);
      var e := ListFrom(lines, ch.1, ordered, items + [item]).1;
      ListFromCount(lines, ch.1, ordered, items + [item]);
      ChildrenCount(lines, i + 1, 0);
      SizeAppend(items, [item]);
      assert [item][1..] == [];
      NonBlankFirst(lines, i, e);
      NonBlankSplit(lines, i + 1, ch.1, e);
    }
  }

  lemma {:induction false} ListFromCountNested(lines: seq<string>, i: nat, ordered: bool, items: seq<ListItem>)
    requires i < |lines| && !IsBlank(lines[i]) && LineIndent(lines[i]) > 0
    requires items != []
    ensures Size(ListFrom(lines, i, ordered, items).0) ==
      Size(items) + NonBlankCount(lines[i..ListFrom(lines, i, ordered, items).1])
    decreases |lines| - i, 0
  {
    var t := Trim(lines[i]);
    ListFromIndented(lines, i, ordered, items);
    if ExtractAny(t).Some? {
      var x := ExtractAny(t).value;
      var child := ListItem(x.marker, InlineParser.Parsed(x.text), []);
      var items' := AdoptChild(items, child);
      ListFromCount(lines, i + 1, ordered, items');
      AdoptedCount(lines, i, ListFrom(lines, i + 1, ordered, items').1, items, child);
    }
  }

  /** Adopting a leaf item adds one item for the one non-blank line it was read from. */
  lemma AdoptedCount(lines: seq<string>, i: nat, e: nat, items: seq<ListItem>, child: ListItem)
    requires i < e <= |lines| && !IsBlank(lines[i]) && items != [] && child.children == []
    ensures Size(AdoptChild(items, child)) + NonBlankCount(lines[i + 1..e]) == Size(items) + NonBlankCount(lines[i..e])
  {
    AdoptChildSize(items, child);
    assert [child][1..] == [];
    NonBlankFirst(lines, i, e);
  }

  /**
   * A list whose first line is an unindented item holds one item, at some depth, per
   * non-blank line it consumes.
   */
  lemma ListAtCount(lines: seq<string>, start: nat, ordered: bool)
    requires start < |lines| && !IsBlank(lines[start]) && LineIndent(lines[start]) == 0
    ensures Size(ListAt(lines, start, ordered).0.items) == NonBlankCount(lines[start..ListAt(lines, start, ordered).1])
  {
    var t := Trim(lines[start]);
    var ex := if ordered then ExtractOrdered(t) else ExtractUnordered(t);
    if ex.Some? {
      var x := ex.value;
      var ch := Children(lines, start + 1, 0);
      var item := ListItem(x.marker, InlineParser.Parsed(x.text), ch.0);
      var e := ListFrom(lines, ch.1, ordered, [item]).1;
      ListFromCount(lines, ch.1, ordered, [item]);
      ChildrenCount(lines, start + 1, 0);
      assert [item][1..] == [];
      assert [] + [item] == [item];
      NonBlankFirst(lines, start, e);
      NonBlankSplit(lines, start + 1, ch.1, e);
    }
  }

  /** An indented item line met before any item is consumed and lost. */
  lemma IndentedFirstItemDropped(lines: seq<string>, i: nat, ordered: bool)
    requires i < |lines| && !IsBlank(lines[i]) && LineIndent(lines[i]) > 0
    requires ExtractAny(Trim(lines[i])).Some?
    ensures ListFrom(lines, i, ordered, []) == ListFrom(lines, i + 1, ordered, [])
  {
  }

  /**
   * An unindented item, a deeper item and a deeper item still nest three levels deep, as
   * `- Parent`, `  - Child`, `    - Grandchild` do.
   */
  lemma NestedThreeLevels(lines: seq<string>)
    requires |lines| == 3
    requires LineIndent(lines[0]) == 0 && ExtractUnordered(Trim(lines[0])).Some?
    requires 0 < LineIndent(lines[1]) < LineIndent(lines[2])
    requires ExtractAny(Trim(lines[1])).Some? && ExtractAny(Trim(lines[2])).Some?
    ensures var items := ListAt(lines, 0, false).0.items;
      |items| == 1 && |items[0].children| == 1 && |items[0].children[0].children| == 1
  {
    forall k | 0 <= k < 3
      ensures !IsBlank(lines[k])
    {
      var t := Trim(lines[k]);
      if ExtractOrdered(t).Some? {
        assert OccursAt(t, ". ", Find(t, ". ").value);
      }
    }
    assert Children(lines, 3, LineIndent(lines[2])) == ([], 3);
    assert Children(lines, 3, LineIndent(lines[1])) == ([], 3);
    assert Children(lines, 3, 0) == ([], 3);
    var gc := Children(lines, 2, LineIndent(lines[1]));
    assert gc == ChildAt(lines, 2, LineIndent(lines[1]));
    assert |gc.0| == 1 && gc.1 == 3;
    var c := Children(lines, 1, 0);
    assert c == ChildAt(lines, 1, 0);
    assert c.0[0].children == gc.0 && c.1 == 3;
    var x := ExtractUnordered(Trim(lines[0])).value;
    var item := ListItem(x.marker, InlineParser.Parsed(x.text), c.0);
    assert ListFrom(lines, 0, false, []) == ListFrom(lines, 3, false, [] + [item]);
    assert [] + [item] == [item];
  }

  // ---------------------------------------------------------------------------------------
  // The implementation's loop
  // ---------------------------------------------------------------------------------------

  /** A blank line continues the list only when the next non-blank line starts an item. */
  lemma ListFromBlank(lines: seq<string>, i: nat, ordered: bool, items: seq<ListItem>)
    requires i < |lines| && IsBlank(lines[i])
    ensures var j := NextNonBlank(lines, i + 1);
      ListFrom(lines, i, ordered, items) ==
        if j < |lines| && (IsListStart(Trim(lines[j])) || IsOrderedListStart(Trim(lines[j]))) then ListFrom(lines, j, ordered, items)
        else (items, i)
  {
  }

  /** An unindented line is an item of the list's own kind, with the deeper lines after it as children. */
  lemma ListFromTop(lines: seq<string>, i: nat, ordered: bool, items: seq<ListItem>)
    requires i < |lines| && !IsBlank(lines[i]) && LineIndent(lines[i]) == 0
    ensures var t := Trim(lines[i]);
      ListFrom(lines, i, ordered, items) ==
        match (if ordered then ExtractOrdered(t) else ExtractUnordered(t))
        case None => (items, i)
        case Some(x) =>
          var ch := Children(lines, i + 1, 0);
          ListFrom(lines, ch.1, ordered, items + [ListItem(x.marker, InlineParser.Parsed(x.text), ch.0)])
  {
  }

  /** An indented item line outside any item's children goes under the last item. */
  lemma ListFromIndented(lines: seq<string>, i: nat, ordered: bool, items: seq<ListItem>)
    requires i < |lines| && !IsBlank(lines[i]) && LineIndent(lines[i]) != 0
    ensures ListFrom(lines, i, ordered, items) ==
      match ExtractAny(Trim(lines[i]))
      case None => (items, i)
      case Some(x) => ListFrom(lines, i + 1, ordered, AdoptChild(items, ListItem(x.marker, InlineParser.Parsed(x.text), [])))
  {
  }

  /**
   * `parse_list`: the line loop with its blank-line look-ahead. As written (`corrected` false)
   * the look-ahead must not land on a line on which `is_list_start` panics.
   */
  method ParseList(lines: seq<string>, start: nat, ordered: bool, corrected: bool) returns (block: Block, end: nat)
    requires start <= |lines|
    requires corrected || !ListPanics(lines, start, ordered)
    ensures block == ListAt(lines, start, ordered).0
    ensures end == ListAt(lines, start, ordered).1
  {
    var items: seq<ListItem> := [];
    var i := start;
    ghost var list := ListFrom(lines, start, ordered, []);
    while i < |lines|
      invariant start <= i <= |lines|
      invariant list == ListFrom(lines, i, ordered, items)
      invariant corrected || !ListPanics(lines, i, ordered)
      decreases |lines| - i
    {
      var line := lines[i];
      var trimmed := Trim(line);
      if trimmed == [] {
        var j := SkipBlankLines(lines, i + 1);
        ListFromBlank(lines, i, ordered, items);
        if j < |lines| {
          var next := Trim(lines[j]);
          var indent := LineIndent(lines[j]);
          var listStart := ListStart(next, corrected);
          if (indent > 0 && (listStart || IsOrderedListStart(next))) || listStart || IsOrderedListStart(next) {
            i := j;
            continue;
          }
        }
        assert list == (items, i);
        break;
      }
      var stop, next;
      items, next, stop := ListLine(lines, i, ordered, items);
      if stop {
        break;
      }
      i := next;
    }
    assert list == (items, i);
    block := List(ordered, items);
    end := i;
  }

  /** The look-ahead of `parse_list`: the first non-blank line from `j` on. */
  method SkipBlankLines(lines: seq<string>, j0: nat) returns (j: nat)
    requires j0 <= |lines|
    ensures j == NextNonBlank(lines, j0)
  {
    j := j0;
    ghost var nextNonBlank := NextNonBlank(lines, j0);
    while j < |lines| && Trim(lines[j]) == []
      invariant j0 <= j <= |lines|
      invariant nextNonBlank == NextNonBlank(lines, j)
    {
      j := j + 1;
    }
  }

  /**
   * One non-blank line of `parse_list`: an unindented item of the list's kind with its children,
   * an indented item adopted by the last item, or the end of the list.
   */
  method ListLine(lines: seq<string>, i: nat, ordered: bool, items: seq<ListItem>)
    returns (items': seq<ListItem>, next: nat, stop: bool)
    requires i < |lines| && !IsBlank(lines[i])
    ensures stop ==> items' == items && ListFrom(lines, i, ordered, items) == (items, i)
    ensures !stop ==> i < next <= |lines| && ListFrom(lines, i, ordered, items) == ListFrom(lines, next, ordered, items')
    ensures !stop ==> ListPanics(lines, i, ordered) == ListPanics(lines, next, ordered)
  {
    var trimmed := Trim(lines[i]);
    items', next, stop := items, i, false;
    var indent := LineIndent(lines[i]);
    if indent == 0 {
      var extracted := if ordered then ExtractOrdered(trimmed) else ExtractUnordered(trimmed);
      ListFromTop(lines, i, ordered, items);
      match extracted {
        case None =>
          stop := true;
        case Some(x) =>
          var inlines := InlineParser.Parse(x.text);
          var children;
          children, next := CollectChildren(lines, i + 1, 0);
          items' := items + [ListItem(x.marker, inlines, children)];
      }
    } else {
      ListFromIndented(lines, i, ordered, items);
      match ExtractAny(trimmed) {
        case None =>
          stop := true;
        case Some(x) =>
          var inlines := InlineParser.Parse(x.text);
          items' := AdoptChild(items, ListItem(x.marker, inlines, []));
          next := i + 1;
      }
    }
  }

}
