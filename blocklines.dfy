/**
 * The line-level rules of the block parser: slide directives, horizontal rules and headings.
 * Fences, images, tables and lists have modules of their own.
 *
 * Each rule is a function; where the implementation computes it with a loop, a method with
 * that loop is proved equal to the function.
 */
module BlockLines {
  import opened Wrappers
  import opened Strings
  import opened Ast
  import InlineParser
  import Seqs

  // ---------------------------------------------------------------------------------------
  // Slide directives (`@name: value`)
  // ---------------------------------------------------------------------------------------

  predicate IsNameChar(c: char) {
    IsAlphanumeric(c) || c == '-' || c == '_'
  }

  /** A directive name: non-empty, letters, digits, `-` and `_` only. */
  predicate IsDirectiveName(n: string) {
    n != [] && forall k :: 0 <= k < |n| ==> IsNameChar(n[k])
  }

  /** `parse_directive_line`: `@`, a name up to the first `:`, and a value; both trimmed. */
  function DirectiveLine(line: string): (r: Option<Directive>)
    ensures r.Some? ==> StartsWith(line, "@") && ':' in line && IsDirectiveName(r.value.name)
  {
    if !StartsWith(line, "@") then None
    else
      assert line == [line[0]] + line[1..];
      match SplitOnce(line[1..], ':')
      case None => None
      case Some((before, after)) =>
        var name := Trim(before);
        if IsDirectiveName(name) then Some(Directive(name, Trim(after))) else None
  }

  /** Every `@…:…` line splits at its first colon; it is a directive exactly when the trimmed name is valid. */
  lemma DirectiveLineOf(before: string, after: string)
    requires ':' !in before
    ensures DirectiveLine("@" + before + ":" + after) ==
      if IsDirectiveName(Trim(before)) then Some(Directive(Trim(before), Trim(after))) else None
  {
    var line := "@" + before + ":" + after;
    assert line[1..] == before + (":" + after);
    FindCharAfter(before, ':', ":" + after);
    assert line[1..][|before| + 1..] == after;
  }

  /** How the directive scan of `extract_directives` sees a line before the content starts. */
  datatype LineClass = Blank | Dir(d: Directive) | Content

  /** The per-line test of `extract_directives`: the trimmed line is empty, a directive, or content. */
  function Classify(line: string): LineClass {
    if IsBlank(line) then Blank
    else match DirectiveLine(Trim(line))
      case Some(d) => Dir(d)
      case None => Content
  }

  /** The class of every line. */
  function Classes(ls: seq<string>): (r: seq<LineClass>)
    ensures |r| == |ls|
  {
    if ls == [] then [] else [Classify(ls[0])] + Classes(ls[1..])
  }

  lemma {:induction false} ClassesAt(ls: seq<string>, k: nat)
    requires k < |ls|
    ensures Classes(ls)[k] == Classify(ls[k])
  {
    if k > 0 {
      ClassesAt(ls[1..], k - 1);
    }
  }

  /**
   * The directive scan from line `i`: blank lines are skipped, directive lines are
   * collected, and the first content line is where the content starts.
   */
  function DirectiveScan(cls: seq<LineClass>, i: nat): (r: (seq<Directive>, nat))
    requires i <= |cls|
    ensures i <= r.1 <= |cls|
    decreases |cls| - i
  {
    if i == |cls| then ([], i)
    else match cls[i]
      case Blank => DirectiveScan(cls, i + 1)
      case Dir(d) => var rest := DirectiveScan(cls, i + 1); ([d] + rest.0, rest.1)
      case Content => ([], i)
  }

  /** The content starts at the first content line; every line before it is blank or a directive. */
  lemma {:induction false} DirectiveScanStops(cls: seq<LineClass>, i: nat)
    requires i <= |cls|
    ensures DirectiveScan(cls, i).1 == |cls| || cls[DirectiveScan(cls, i).1].Content?
    ensures forall k :: i <= k < DirectiveScan(cls, i).1 ==> !cls[k].Content?
    decreases |cls| - i
  {
    if i < |cls| && !cls[i].Content? {
      DirectiveScanStops(cls, i + 1);
    }
  }

  /** The directives among `cs`, in order: a reference definition by filtering. */
  function DirectivesIn(cs: seq<LineClass>): seq<Directive> {
    if cs == [] then []
    else (if cs[0].Dir? then [cs[0].d] else []) + DirectivesIn(cs[1..])
  }

  /** The scan collects every directive line before the content, in order, and nothing else. */
  lemma {:induction false} DirectiveScanCollects(cls: seq<LineClass>, i: nat)
    requires i <= |cls|
    ensures DirectiveScan(cls, i).0 == DirectivesIn(cls[i..DirectiveScan(cls, i).1])
    decreases |cls| - i
  {
    var e := DirectiveScan(cls, i).1;
    if i < |cls| && !cls[i].Content? {
      DirectiveScanCollects(cls, i + 1);
      assert cls[i..e][1..] == cls[i + 1..e];
    } else {
      assert cls[i..e] == [];
    }
  }

  lemma ScanBlank(cls: seq<LineClass>, n: nat)
    requires n < |cls| && cls[n].Blank?
    ensures DirectiveScan(cls, n) == DirectiveScan(cls, n + 1)
  {
  }

  lemma ScanDirective(cls: seq<LineClass>, n: nat, d: Directive)
    requires n < |cls| && cls[n] == Dir(d)
    ensures DirectiveScan(cls, n) == ([d] + DirectiveScan(cls, n + 1).0, DirectiveScan(cls, n + 1).1)
  {
  }

  lemma ScanContent(cls: seq<LineClass>, n: nat)
    requires n < |cls| && cls[n].Content?
    ensures DirectiveScan(cls, n) == ([], n)
  {
  }

  /** `extract_directives` as a function of the slide text: the directives and the rest. */
  function SplitDirectives(raw: string): (seq<Directive>, string) {
    var ls := Lines(raw);
    var scan := DirectiveScan(Classes(ls), 0);
    (scan.0, Join(ls[scan.1..], "\n"))
  }

  /** `extract_directives`: one pass over the lines with a `past_directives` flag. */
  method ExtractDirectives(raw: string) returns (directives: seq<Directive>, content: string)
    ensures (directives, content) == SplitDirectives(raw)
  {
    var remaining;
    directives, remaining := SeparateDirectives(Lines(raw));
    content := Join(remaining, "\n");
  }

  /** The loop of `extract_directives`: the directives before the content, and the lines from the content on. */
  method SeparateDirectives(ls: seq<string>) returns (directives: seq<Directive>, remaining: seq<string>)
    ensures directives == DirectiveScan(Classes(ls), 0).0
    ensures remaining == ls[DirectiveScan(Classes(ls), 0).1..]
  {
    ghost var cls := Classes(ls);
    ghost var scan := DirectiveScan(cls, 0);
    remaining := [];
    directives := [];
    var past := false;
    ghost var cut := 0;
    var n := 0;
    while n < |ls|
      invariant n <= |ls| && cut <= n
      invariant remaining == ls[cut..n]
      invariant !past ==> cut == n
      invariant !past ==> scan.1 == DirectiveScan(cls, n).1
      invariant !past ==> scan.0 == directives + DirectiveScan(cls, n).0
      invariant past ==> scan.0 == directives && scan.1 == cut
    {
      var line := ls[n];
      if past {
        SliceExtend(ls, cut, n);
        remaining := remaining + [line];
      } else {
        var isContent;
        directives, isContent := ScanLine(ls, n, directives);
        if isContent {
          // `remaining` is still empty: the first content line starts it.
          past := true;
          remaining := [line];
        } else {
          cut := n + 1;
        }
      }
      n := n + 1;
    }
    if !past {
      assert DirectiveScan(cls, n) == ([], n);
    }
    assert ls[cut..n] == ls[cut..];
  }

  /** One line before the content: a blank line is skipped, a directive collected, a content line stops the scan. */
  method ScanLine(ls: seq<string>, n: nat, directives: seq<Directive>) returns (directives': seq<Directive>, isContent: bool)
    requires n < |ls|
    ensures isContent ==> DirectiveScan(Classes(ls), n) == ([], n) && directives' == directives
    ensures !isContent ==> DirectiveScan(Classes(ls), n).1 == DirectiveScan(Classes(ls), n + 1).1
    ensures !isContent ==>
      directives + DirectiveScan(Classes(ls), n).0 == directives' + DirectiveScan(Classes(ls), n + 1).0
  {
    ghost var cls := Classes(ls);
    ClassesAt(ls, n);
    var c := Classify(ls[n]);
    directives', isContent := directives, false;
    match c
    case Blank =>
      ScanBlank(cls, n);
    case Dir(d) =>
      ScanDirective(cls, n, d);
      Seqs.AppendAssoc(directives, [d], DirectiveScan(cls, n + 1).0);
      directives' := directives + [d];
    case Content =>
      ScanContent(cls, n);
      isContent := true;
  }

  // ---------------------------------------------------------------------------------------
  // Horizontal rules and headings
  // ---------------------------------------------------------------------------------------

  /** The non-whitespace characters of `s`, in order. */
  function NonWhitespace(s: string): (r: string)
    ensures |r| <= |s|
  {
    if s == [] then [] else (if IsWhitespace(s[0]) then [] else [s[0]]) + NonWhitespace(s[1..])
  }

  /** `is_horizontal_rule`: at least three bytes, and at least three non-whitespace characters, all `*` or all `_`. */
  predicate IsHorizontalRule(line: string) {
    ByteLen(line) >= 3 &&
    var cs := NonWhitespace(line);
    |cs| >= 3 && (cs[0] == '*' || cs[0] == '_') && AllOf(cs, cs[0])
  }

  /** Every character of `s` is `c` or whitespace. */
  predicate OnlyCharAndSpace(s: string, c: char) {
    forall k :: 0 <= k < |s| ==> s[k] == c || IsWhitespace(s[k])
  }

  /** Dropping whitespace keeps every occurrence of a non-whitespace character. */
  lemma {:induction false} NonWhitespaceCount(s: string, c: char)
    requires !IsWhitespace(c)
    ensures multiset(NonWhitespace(s))[c] == Count(s, c)
    decreases |s|
  {
    if s != [] {
      NonWhitespaceCount(s[1..], c);
      assert s == [s[0]] + s[1..];
    }
  }

  /** Every character of `s` is `c`. */
  predicate AllOf(s: string, c: char) {
    forall k :: 0 <= k < |s| ==> s[k] == c
  }

  /** The kept characters are all `c` exactly when every character is `c` or whitespace. */
  lemma {:induction false} NonWhitespaceAll(s: string, c: char)
    requires !IsWhitespace(c)
    ensures AllOf(NonWhitespace(s), c) <==> OnlyCharAndSpace(s, c)
    decreases |s|
  {
    if s != [] {
      var t := s[1..];
      NonWhitespaceAll(t, c);
      var r := NonWhitespace(s);
      var head := if IsWhitespace(s[0]) then [] else [s[0]];
      assert r == head + NonWhitespace(t);
      if OnlyCharAndSpace(s, c) {
        forall k | 0 <= k < |t| ensures t[k] == c || IsWhitespace(t[k]) {
          assert t[k] == s[k + 1];
        }
        assert OnlyCharAndSpace(t, c);
        forall k | 0 <= k < |r| ensures r[k] == c {
          if k >= |head| {
            assert r[k] == NonWhitespace(t)[k - |head|];
          }
        }
      }
      if AllOf(r, c) {
        forall k | 0 <= k < |NonWhitespace(t)| ensures NonWhitespace(t)[k] == c {
          assert NonWhitespace(t)[k] == r[k + |head|];
        }
        assert OnlyCharAndSpace(t, c);
        forall k | 0 <= k < |s| ensures s[k] == c || IsWhitespace(s[k]) {
          if k > 0 {
            assert s[k] == t[k - 1];
          } else if !IsWhitespace(s[0]) {
            assert r[0] == s[0];
          }
        }
      }
    }
  }

  /** A rule line is three or more of one rule character (`*` or `_`), with only whitespace besides. */
  lemma HorizontalRuleIff(line: string)
    ensures IsHorizontalRule(line) <==>
      exists c :: (c == '*' || c == '_') && Count(line, c) >= 3 && OnlyCharAndSpace(line, c)
  {
    if IsHorizontalRule(line) {
      RuleHasChar(line);
    }
    forall c | (c == '*' || c == '_') && Count(line, c) >= 3 && OnlyCharAndSpace(line, c)
      ensures IsHorizontalRule(line)
    {
      CharMakesRule(line, c);
    }
  }

  /** A rule line is made of its first kept character, at least three times, and whitespace. */
  lemma RuleHasChar(line: string)
    requires IsHorizontalRule(line)
    ensures var c := NonWhitespace(line)[0];
      (c == '*' || c == '_') && Count(line, c) >= 3 && OnlyCharAndSpace(line, c)
  {
    var cs := NonWhitespace(line);
    var c := cs[0];
    NonWhitespaceCount(line, c);
    NonWhitespaceAll(line, c);
    AllSameCount(cs, c);
  }

  /** Three or more of one rule character, with only whitespace besides, make a rule line. */
  lemma CharMakesRule(line: string, c: char)
    requires (c == '*' || c == '_') && Count(line, c) >= 3 && OnlyCharAndSpace(line, c)
    ensures IsHorizontalRule(line)
  {
    var cs := NonWhitespace(line);
    NonWhitespaceCount(line, c);
    NonWhitespaceAll(line, c);
    AllSameCount(cs, c);
    assert |cs| >= 3;
    assert cs[0] == c;
    ByteLenAtLeast(line);
  }

  lemma {:induction false} AllSameCount(s: string, c: char)
    requires forall k :: 0 <= k < |s| ==> s[k] == c
    ensures multiset(s)[c] == |s|
    decreases |s|
  {
    if s != [] {
      assert s == [s[0]] + s[1..];
      AllSameCount(s[1..], c);
    }
  }

  lemma ByteLenAtLeast(s: string)
    ensures ByteLen(s) >= |s|
  {
  }

  /** The `#` run, level and text of a heading line (`parse_heading` before the inline parse). */
  function HeadingAt(line: string): (r: Option<(nat, string)>)
    ensures r.Some? ==> 1 <= r.value.0 <= 6
  {
    if !StartsWith(line, "#") then None
    else
      var level := RunLength(line, '#');
      if level == 0 || level > 6 then None
      else
        var rest := line[level..];
        if !StartsWith(rest, " ") && rest != [] then None
        else Some((level, Trim(rest)))
  }

  /**
   * A line is a heading exactly when it starts with one to six `#` followed by a space or
   * by nothing; the level is the number of `#`, the text the trimmed remainder.
   */
  lemma HeadingIff(line: string)
    ensures HeadingAt(line).Some? <==>
      var n := RunLength(line, '#');
      1 <= n <= 6 && (n == |line| || line[n] == ' ')
    ensures HeadingAt(line).Some? ==>
      var n := RunLength(line, '#');
      HeadingAt(line).value == (n, Trim(line[n..]))
  {
    var n := RunLength(line, '#');
    StartsWithChar(line, '#');
    StartsWithChar(line[n..], ' ');
  }

  /** Starting with a one-character string is having that character first. */
  lemma StartsWithChar(s: string, c: char)
    ensures StartsWith(s, [c]) <==> s != [] && s[0] == c
  {
    if s != [] {
      assert s[..1] == [s[0]];
    }
  }

  /** The heading block of a line, with its text parsed into inlines. */
  function HeadingBlock(line: string): Option<Block> {
    match HeadingAt(line)
    case None => None
    case Some((level, text)) => Some(Heading(level, InlineParser.Parsed(text)))
  }

  /** `parse_heading`: counts the leading `#` in a loop. */
  method ParseHeading(line: string) returns (r: Option<Block>)
    ensures r == HeadingBlock(line)
  {
    if !StartsWith(line, "#") {
      return None;
    }
    var level := 0;
    while level < |line| && line[level] == '#'
      invariant level <= |line|
      invariant forall k :: 0 <= k < level ==> line[k] == '#'
    {
      level := level + 1;
    }
    assert level == RunLength(line, '#');
    if level == 0 || level > 6 {
      return None;
    }
    var rest := line[level..];
    if !StartsWith(rest, " ") && rest != [] {
      return None;
    }
    var inlines := InlineParser.Parse(Trim(rest));
    r := Some(Heading(level, inlines));
  }
}
