/**
 * The frontmatter extractor of presemd (`parser/frontmatter.rs`): a leading byte-order mark is
 * dropped, and a header between `---` lines is cut off and read as metadata. The YAML reader is
 * a parameter; the delimiter scan, its offset arithmetic and the manual `key: value` fallback are
 * modelled. Offsets count characters where the source counts bytes.
 */
module Frontmatter {
  import opened Wrappers
  import opened Strings
  import opened Seqs

  /** `PresentationMeta`: the eight optional header fields. */
  datatype Meta = Meta(
    title: Option<string>,
    author: Option<string>,
    date: Option<string>,
    theme: Option<string>,
    transition: Option<string>,
    aspect: Option<string>,
    codeTheme: Option<string>,
    footer: Option<string>)

  const DefaultMeta := Meta(None, None, None, None, None, None, None, None)

  const Bom: char := '\U{FEFF}'

  /** What `extract` returns: the metadata and the body text. */
  datatype Extracted = Extracted(meta: Meta, body: string)

  // ---------------------------------------------------------------------------------------
  // The closing delimiter
  // ---------------------------------------------------------------------------------------

  /** The first line at or after `from` that trims to `---`. */
  function FirstClose(ls: seq<string>, from: nat): (r: Option<nat>)
    ensures r.Some? ==> from <= r.value < |ls| && Trim(ls[r.value]) == "---"
    ensures r.Some? ==> forall j :: from <= j < r.value ==> Trim(ls[j]) != "---"
    ensures r.None? ==> forall j :: from <= j < |ls| ==> Trim(ls[j]) != "---"
    decreases |ls| - from
  {
    if from >= |ls| then None
    else if Trim(ls[from]) == "---" then Some(from)
    else FirstClose(ls, from + 1)
  }

  /** The offset `find_closing_delimiter` computes for line `i`: each earlier line's length plus one. */
  function LineOffset(ls: seq<string>, i: nat): nat
    requires i <= |ls|
  {
    if i == 0 then 0 else LineOffset(ls, i - 1) + |ls[i - 1]| + 1
  }

  /** Where line `i` of `s` really starts: just after its `i`-th newline. */
  function LineStart(s: string, i: nat): (r: nat)
    ensures r <= |s|
    decreases |s|
  {
    if i == 0 then 0
    else match FindChar(s, '\n')
      case None => |s|
      case Some(k) => k + 1 + LineStart(s[k + 1..], i - 1)
  }

  lemma {:induction false} OffsetCons(ls: seq<string>, i: nat)
    requires 0 < i <= |ls|
    ensures LineOffset(ls, i) == |ls[0]| + 1 + LineOffset(ls[1..], i - 1)
  {
    if i > 1 {
      OffsetCons(ls, i - 1);
      assert ls[1..][i - 2] == ls[i - 1];
    }
  }

  /** Lines lose their `\r`, so the computed offset never passes the real start of the line. */
  lemma {:induction false} OffsetAtMost(s: string, i: nat)
    requires i < |Lines(s)|
    ensures LineOffset(Lines(s), i) <= LineStart(s, i)
    decreases |s|
  {
    if i > 0 {
      var ls := Lines(s);
      OffsetCons(ls, i);
      match FindChar(s, '\n')
      case None =>
        assert false;
      case Some(k) =>
        LinesCons(s, k);
        assert ls[1..] == Lines(s[k + 1..]);
        OffsetAtMost(s[k + 1..], i - 1);
    }
  }

  /** `find_closing_delimiter` as a function: the offset of the first `---` line after line 0. */
  function ClosingOffset(s: string): (r: Option<nat>)
    ensures r.Some? ==> r.value <= |s|
  {
    match FirstClose(Lines(s), 1)
    case None => None
    case Some(i) =>
      OffsetAtMost(s, i);
      Some(LineOffset(Lines(s), i))
  }

  /**
   * `find_closing_delimiter`: scan the lines for a `---` after the first; once found, walk the
   * lines again adding up their lengths until that line is reached.
   */
  method FindClosingDelimiter(s: string) returns (r: Option<nat>)
    ensures r == ClosingOffset(s)
  {
    var ls := Lines(s);
    for i := 0 to |ls|
      invariant forall j :: 0 < j < i ==> Trim(ls[j]) != "---"
    {
      var trimmed := Trim(ls[i]);
      if trimmed == "---" && i > 0 {
        var offset := OffsetOfLine(ls, i);
        return Some(offset);
      }
    }
    return None;
  }

  /** The inner loop of `find_closing_delimiter`: the lengths of the lines before line `i`, plus one each. */
  method OffsetOfLine(ls: seq<string>, i: nat) returns (offset: nat)
    requires i <= |ls|
    ensures offset == LineOffset(ls, i)
  {
    offset := 0;
    for j := 0 to i
      invariant offset == LineOffset(ls, j)
    {
      offset := offset + |ls[j]| + 1;
    }
  }

  /** The first line of a text with a newline, and the lines after it. */
  lemma LinesCons(s: string, k: nat)
    requires FindChar(s, '\n') == Some(k)
    ensures Lines(s) == [StripCr(s[..k])] + Lines(s[k + 1..])
    ensures LineStart(s, 1) == k + 1
  {
  }

  lemma LinesConsLength(s: string, k: nat)
    requires FindChar(s, '\n') == Some(k)
    ensures |Lines(s)| == 1 + |Lines(s[k + 1..])|
  {
    LinesCons(s, k);
  }

  /** Past the first newline, line `i` of `s` starts where line `i - 1` of the rest starts. */
  lemma SuffixAfterNewline(s: string, k: nat, i: nat)
    requires FindChar(s, '\n') == Some(k) && 0 < i
    ensures s[LineStart(s, i)..] == s[k + 1..][LineStart(s[k + 1..], i - 1)..]
  {
    var j := LineStart(s[k + 1..], i - 1);
    assert LineStart(s, i) == k + 1 + j;
    assert s[k + 1 + j..] == s[k + 1..][j..];
  }

  /** Dropping `i` lines of `s` drops `i - 1` lines of the text after its first newline. */
  lemma DropLinesAfterNewline(s: string, k: nat, i: nat)
    requires FindChar(s, '\n') == Some(k) && 0 < i <= |Lines(s)|
    ensures Lines(s)[i..] == Lines(s[k + 1..])[i - 1..]
  {
    LinesCons(s, k);
    DropCons(StripCr(s[..k]), Lines(s[k + 1..]), i);
  }

  /** One step of `LinesFromAll`: past the first newline, line `i` of `s` is line `i - 1` of the rest. */
  lemma LinesFromStep(s: string, k: nat, i: nat)
    requires FindChar(s, '\n') == Some(k) && 0 < i <= |Lines(s)|
    requires Lines(s[k + 1..][LineStart(s[k + 1..], i - 1)..]) == Lines(s[k + 1..])[i - 1..]
    ensures Lines(s[LineStart(s, i)..]) == Lines(s)[i..]
  {
    SuffixAfterNewline(s, k, i);
    LinesOfEqual(s[LineStart(s, i)..], s[k + 1..][LineStart(s[k + 1..], i - 1)..]);
    DropLinesAfterNewline(s, k, i);
  }

  /** For every line `i` of `s`, the lines from `i` on are the lines of `s` cut at `LineStart(s, i)`. */
  lemma {:induction false} LinesFromAll(s: string)
    ensures forall i: nat :: i <= |Lines(s)| ==> Lines(s[LineStart(s, i)..]) == Lines(s)[i..]
    decreases |s|
  {
    match FindChar(s, '\n')
    case None =>
      forall i: nat | i <= |Lines(s)|
        ensures Lines(s[LineStart(s, i)..]) == Lines(s)[i..]
      {
        if i == 0 {
          LinesFromZero(s);
        } else {
          LinesLast(s, i);
        }
      }
    case Some(k) =>
      LinesFromAll(s[k + 1..]);
      forall i: nat | i <= |Lines(s)|
        ensures Lines(s[LineStart(s, i)..]) == Lines(s)[i..]
      {
        if i == 0 {
          LinesFromZero(s);
        } else {
          LinesRestBound(s, k, i);
          LinesFromStep(s, k, i);
        }
      }
  }

  /** Line 0 starts the text. */
  lemma LinesFromZero(s: string)
    ensures Lines(s[LineStart(s, 0)..]) == Lines(s)[0..]
  {
    LinesOfEqual(s[LineStart(s, 0)..], s);
    assert Lines(s)[0..] == Lines(s);
  }

  /** The lines of `s` from its line `i` on are exactly the lines of `s` cut at `LineStart(s, i)`. */
  lemma LinesFrom(s: string, i: nat)
    requires i <= |Lines(s)|
    ensures Lines(s[LineStart(s, i)..]) == Lines(s)[i..]
  {
    LinesFromAll(s);
  }

  /** Past the first newline, at least `i - 1` lines are left. */
  lemma LinesRestBound(s: string, k: nat, i: nat)
    requires FindChar(s, '\n') == Some(k) && 0 < i <= |Lines(s)|
    ensures i - 1 <= |Lines(s[k + 1..])|
  {
    LinesConsLength(s, k);
  }

  /** Without a newline the text is one line, and past it nothing is left. */
  lemma LinesLast(s: string, i: nat)
    requires FindChar(s, '\n').None? && 0 < i <= |Lines(s)|
    ensures Lines(s[LineStart(s, i)..]) == Lines(s)[i..]
  {
    assert Lines(s) == [s];
    assert s[LineStart(s, i)..] == [];
  }

  /** With `\n` endings only, the computed offset is exactly where the line starts. */
  lemma {:induction false} OffsetExact(s: string, i: nat)
    requires '\r' !in s
    requires i < |Lines(s)|
    ensures LineOffset(Lines(s), i) == LineStart(s, i)
    decreases |s|
  {
    if i > 0 {
      var ls := Lines(s);
      OffsetCons(ls, i);
      match FindChar(s, '\n')
      case None =>
        assert false;
      case Some(k) =>
        if k > 0 {
          assert s[..k][k - 1] == s[k - 1];
        }
        assert StripCr(s[..k]) == s[..k];
        LinesCons(s, k);
        assert ls[1..] == Lines(s[k + 1..]);
        assert forall c :: c in s[k + 1..] ==> c in s;
        OffsetExact(s[k + 1..], i - 1);
    }
  }

  // ---------------------------------------------------------------------------------------
  // The manual `key: value` reader
  // ---------------------------------------------------------------------------------------

  /** The eight keys the header understands. */
  predicate IsKey(key: string) {
    key == "title" || key == "author" || key == "date" || key == "@theme" || key == "@transition"
    || key == "@aspect" || key == "@code-theme" || key == "@footer"
  }

  /** The field a key sets. */
  function Field(m: Meta, key: string): Option<string>
    requires IsKey(key)
  {
    if key == "title" then m.title
    else if key == "author" then m.author
    else if key == "date" then m.date
    else if key == "@theme" then m.theme
    else if key == "@transition" then m.transition
    else if key == "@aspect" then m.aspect
    else if key == "@code-theme" then m.codeTheme
    else m.footer
  }

  /** The effect of one `key: value` pair; other keys change nothing. */
  function SetKey(m: Meta, key: string, value: string): Meta {
    if key == "title" then m.(title := Some(value))
    else if key == "author" then m.(author := Some(value))
    else if key == "date" then m.(date := Some(value))
    else if key == "@theme" then m.(theme := Some(value))
    else if key == "@transition" then m.(transition := Some(value))
    else if key == "@aspect" then m.(aspect := Some(value))
    else if key == "@code-theme" then m.(codeTheme := Some(value))
    else if key == "@footer" then m.(footer := Some(value))
    else m
  }

  /** A trimmed line split at its first `:`: the trimmed key and the trimmed, unquoted value. */
  function KeyValue(line: string): Option<(string, string)> {
    match SplitOnce(Trim(line), ':')
    case None => None
    case Some(kv) => Some((Trim(kv.0), TrimMatches(Trim(kv.1), '"')))
  }

  /** The effect of one header line. */
  function ReadLine(m: Meta, line: string): Meta {
    match KeyValue(line)
    case None => m
    case Some(kv) => SetKey(m, kv.0, kv.1)
  }

  /** `parse_frontmatter_manual` as a function: the lines read in order from the default. */
  function ReadLines(ls: seq<string>): Meta {
    if ls == [] then DefaultMeta else ReadLine(ReadLines(ls[..|ls| - 1]), ls[|ls| - 1])
  }

  /** `parse_frontmatter_manual`: one pass over the lines, updating the metadata. */
  method ParseFrontmatterManual(yaml: string) returns (meta: Meta)
    ensures meta == ReadLines(Lines(yaml))
  {
    var ls := Lines(yaml);
    meta := DefaultMeta;
    for k := 0 to |ls|
      invariant meta == ReadLines(ls[..k])
    {
      assert ls[..k + 1][..k] == ls[..k];
      var line := Trim(ls[k]);
      match SplitOnce(line, ':') {
        case None =>
        case Some(kv) =>
          var key := Trim(kv.0);
          var value := TrimMatches(Trim(kv.1), '"');
          if key == "title" {
            meta := meta.(title := Some(value));
          } else if key == "author" {
            meta := meta.(author := Some(value));
          } else if key == "date" {
            meta := meta.(date := Some(value));
          } else if key == "@theme" {
            meta := meta.(theme := Some(value));
          } else if key == "@transition" {
            meta := meta.(transition := Some(value));
          } else if key == "@aspect" {
            meta := meta.(aspect := Some(value));
          } else if key == "@code-theme" {
            meta := meta.(codeTheme := Some(value));
          } else if key == "@footer" {
            meta := meta.(footer := Some(value));
          }
      }
    }
    assert ls[..|ls|] == ls;
  }

  /** The value of the last line carrying `key`, if any. */
  function LastValue(ls: seq<string>, key: string): Option<string> {
    if ls == [] then None
    else
      var kv := KeyValue(ls[|ls| - 1]);
      if kv.Some? && kv.value.0 == key then Some(kv.value.1) else LastValue(ls[..|ls| - 1], key)
  }

  /** A pair sets the field of its own key and no other. */
  lemma SetKeyField(m: Meta, key: string, value: string, field: string)
    requires IsKey(field)
    ensures Field(SetKey(m, key, value), field) == if key == field then Some(value) else Field(m, field)
  {
  }

  /** Each field holds the value of the last line with its key: a later line wins, other keys are ignored. */
  lemma {:induction false} ReadLinesField(ls: seq<string>, key: string)
    requires IsKey(key)
    ensures Field(ReadLines(ls), key) == LastValue(ls, key)
  {
    if ls != [] {
      ReadLinesField(ls[..|ls| - 1], key);
      match KeyValue(ls[|ls| - 1])
      case None =>
      case Some(kv) =>
        SetKeyField(ReadLines(ls[..|ls| - 1]), kv.0, kv.1, key);
    }
  }

  /** A line splits at its first `:`, so the value keeps any later colon (`@aspect: 16:9`). */
  lemma SplitAtFirstColon(key: string, value: string)
    requires ':' !in key
    requires Trim(key + ":" + value) == key + ":" + value
    ensures KeyValue(key + ":" + value) == Some((Trim(key), TrimMatches(Trim(value), '"')))
  {
    var line := key + ":" + value;
    assert line == key + (":" + value);
    FindCharAfter(key, ':', ":" + value);
    assert line[..|key|] == key && line[|key| + 1..] == value;
  }

  /** A line without `:`, or with an unknown key, leaves the metadata as it was. */
  lemma UnknownLineIgnored(m: Meta, line: string)
    requires KeyValue(line).None? || !IsKey(KeyValue(line).value.0)
    ensures ReadLine(m, line) == m
  {
  }

  /** `parse_frontmatter`: the YAML reading when the text is a YAML map, else the manual reader. */
  function ParseFrontmatter(yaml: string -> Option<Meta>, text: string): Meta {
    match yaml(text)
    case Some(m) => m
    case None => ReadLines(Lines(text))
  }

  /** `parse_frontmatter`: the YAML reader first, the manual reader when it fails. */
  method ParseFrontmatterWith(yaml: string -> Option<Meta>, text: string) returns (meta: Meta)
    ensures meta == ParseFrontmatter(yaml, text)
  {
    match yaml(text) {
      case Some(m) => meta := m;
      case None => meta := ParseFrontmatterManual(text);
    }
  }

  // ---------------------------------------------------------------------------------------
  // `extract`
  // ---------------------------------------------------------------------------------------

  /** `trim_start_matches('\u{feff}')`: every leading byte-order mark removed, nothing else. */
  function StripBom(content: string): (r: string)
    ensures |r| <= |content| && r == content[|content| - |r|..]
    ensures forall k :: 0 <= k < |content| - |r| ==> content[k] == Bom
    ensures r == [] || r[0] != Bom
  {
    TrimStartMatches(content, Bom)
  }

  /** The text after an opening `---\r\n` or `---\n`, if the text starts with one. */
  function AfterOpening(t: string): (r: Option<string>)
    ensures r.Some? <==> StartsWith(t, "---\n") || StartsWith(t, "---\r\n")
    ensures r.Some? ==> EndsWith(t, r.value)
  {
    if StartsWith(t, "---\r\n") then Some(t[5..])
    else if StartsWith(t, "---\n") then Some(t[4..])
    else None
  }

  /** The body after the closing line that starts at `end`: past its newline, or nothing. */
  function BodyAfter(after: string, end: nat): string
    requires end <= |after|
  {
    var newline := FindChar(after[end..], '\n');
    var restStart := end + (if newline.Some? then newline.value else |after| - end) + 1;
    if restStart < |after| then after[restStart..] else []
  }

  /** `extract` as a function, with the YAML reader as a parameter. */
  function ExtractWith(yaml: string -> Option<Meta>, content: string): Extracted {
    var t := StripBom(content);
    match AfterOpening(t)
    case None => Extracted(DefaultMeta, t)
    case Some(after) =>
      match ClosingOffset(after)
      case None => Extracted(DefaultMeta, t)
      case Some(end) => Extracted(ParseFrontmatter(yaml, after[..end]), BodyAfter(after, end))
  }

  /** `extract`. */
  method Extract(yaml: string -> Option<Meta>, content: string) returns (meta: Meta, body: string)
    ensures Extracted(meta, body) == ExtractWith(yaml, content)
  {
    var trimmed := StripBom(content);
    if !StartsWith(trimmed, "---\n") && !StartsWith(trimmed, "---\r\n") {
      assert AfterOpening(trimmed).None?;
      return DefaultMeta, trimmed;
    }
    var afterOpening := AfterOpening(trimmed).value;
    ghost var spec := ExtractWith(yaml, content);
    assert spec == match ClosingOffset(afterOpening)
      case None => Extracted(DefaultMeta, trimmed)
      case Some(end) => Extracted(ParseFrontmatter(yaml, afterOpening[..end]), BodyAfter(afterOpening, end));
    var closing := FindClosingDelimiter(afterOpening);
    if closing.None? {
      return DefaultMeta, trimmed;
    }
    var endPos := closing.value;
    assert spec == Extracted(ParseFrontmatter(yaml, afterOpening[..endPos]), BodyAfter(afterOpening, endPos));
    var yamlStr := afterOpening[..endPos];
    body := BodyAfter(afterOpening, endPos);
    meta := ParseFrontmatterWith(yaml, yamlStr);
  }

  /** Without an opening or a closing delimiter the text is all body, with only its byte-order marks removed. */
  lemma NoHeaderAllBody(yaml: string -> Option<Meta>, content: string)
    requires AfterOpening(StripBom(content)).None? || ClosingOffset(AfterOpening(StripBom(content)).value).None?
    ensures ExtractWith(yaml, content) == Extracted(DefaultMeta, StripBom(content))
  {
  }

  /** A text that starts neither with a mark nor with `---` comes back unchanged as the body. */
  lemma PlainTextUnchanged(yaml: string -> Option<Meta>, content: string)
    requires content == [] || content[0] != Bom
    requires !StartsWith(content, "---\n") && !StartsWith(content, "---\r\n")
    ensures ExtractWith(yaml, content) == Extracted(DefaultMeta, content)
  {
    assert StripBom(content) == content;
  }

  /** The body starts on the line after line `i`: its lines are those of `after` past line `i`. */
  lemma BodyAfterLines(after: string, i: nat)
    requires i < |Lines(after)|
    ensures Lines(BodyAfter(after, LineStart(after, i))) == Lines(after)[i + 1..]
  {
    var st := LineStart(after, i);
    var tail := after[st..];
    LinesFrom(after, i);
    DropAfterDrop(Lines(after), i);
    match FindChar(tail, '\n')
    case None =>
      assert Lines(tail) == [tail];
      BodyAfterLastLine(after, st);
    case Some(k) =>
      BodyAfterNewline(after, st, k);
      LinesOfEqual(BodyAfter(after, st), tail[k + 1..]);
      DropLinesAfterNewline(tail, k, 1);
      assert Lines(tail[k + 1..])[0..] == Lines(tail[k + 1..]);
  }

  /** Without a newline after `end`, nothing follows the closing line. */
  lemma BodyAfterLastLine(after: string, end: nat)
    requires end <= |after| && FindChar(after[end..], '\n').None?
    ensures BodyAfter(after, end) == []
  {
  }

  /** With a newline after `end`, the body is what follows that newline. */
  lemma BodyAfterNewline(after: string, end: nat, k: nat)
    requires end <= |after| && FindChar(after[end..], '\n') == Some(k)
    ensures BodyAfter(after, end) == after[end..][k + 1..]
  {
    assert after[end..][k + 1..] == after[end + k + 1..];
  }


  // ---------------------------------------------------------------------------------------
  // With `\r\n` endings the offset falls short
  // ---------------------------------------------------------------------------------------

  /** The closing offset counted on the text itself, line terminators included. */
  function FixedClosingOffset(s: string): (r: Option<nat>)
    ensures r.Some? ==> r.value <= |s|
  {
    match FirstClose(Lines(s), 1)
    case None => None
    case Some(i) => Some(LineStart(s, i))
  }

  /** `extract` with the closing offset counted on the text itself. */
  function ExtractFixed(yaml: string -> Option<Meta>, content: string): Extracted {
    var t := StripBom(content);
    match AfterOpening(t)
    case None => Extracted(DefaultMeta, t)
    case Some(after) =>
      match FixedClosingOffset(after)
      case None => Extracted(DefaultMeta, t)
      case Some(end) => Extracted(ParseFrontmatter(yaml, after[..end]), BodyAfter(after, end))
  }

  /** The body is exactly the lines after the closing `---`, whatever the line endings. */
  lemma FixedBodyLines(yaml: string -> Option<Meta>, content: string, i: nat)
    requires AfterOpening(StripBom(content)).Some?
    requires FirstClose(Lines(AfterOpening(StripBom(content)).value), 1) == Some(i)
    ensures Lines(ExtractFixed(yaml, content).body) == Lines(AfterOpening(StripBom(content)).value)[i + 1..]
  {
    BodyAfterLines(AfterOpening(StripBom(content)).value, i);
  }

  lemma NoCrInSuffix(s: string, n: nat)
    requires '\r' !in s && n <= |s|
    ensures '\r' !in s[n..]
  {
  }

  /** With `\n` endings the source and the corrected extractor agree. */
  lemma LfAgrees(yaml: string -> Option<Meta>, content: string)
    requires '\r' !in content
    ensures ExtractWith(yaml, content) == ExtractFixed(yaml, content)
  {
    var t := StripBom(content);
    NoCrInSuffix(content, |content| - |t|);
    if AfterOpening(t).Some? {
      var after := AfterOpening(t).value;
      NoCrInSuffix(t, |t| - |after|);
      match FirstClose(Lines(after), 1)
      case None =>
      case Some(i) =>
        OffsetExact(after, i);
        assert ClosingOffset(after) == FixedClosingOffset(after);
    }
  }

  /** A line ended by a newline, then the rest. */
  lemma LinesAfterNewline(x: string, y: string)
    requires '\n' !in x
    ensures Lines(x + "\n" + y) == [StripCr(x)] + Lines(y)
    ensures LineStart(x + "\n" + y, 1) == |x| + 1
  {
    var s := x + "\n" + y;
    assert s == x + ("\n" + y);
    FindCharAfter(x, '\n', "\n" + y);
    LinesCons(s, |x|);
    assert s[..|x|] == x && s[|x| + 1..] == y;
  }

  lemma Assoc(x: string, y: string, z: string)
    ensures x + y + z == x + (y + z)
  {
  }

  /** The header text cut after `a\r`, and after `a\r\n`. */
  lemma CrlfSplit(a: string, b: string)
    ensures a + "\r\n---\r\n" + b == (a + "\r") + ("\n" + ("---\r\n" + b))
    ensures a + "\r\n---\r\n" + b == (a + "\r\n") + ("---\r\n" + b)
  {
    var dash := "---\r\n" + b;
    Assoc(a, "\r\n---\r\n", b);
    assert "\r\n---\r\n" == "\r\n" + "---\r\n";
    Assoc("\r\n", "---\r\n", b);
    Assoc(a, "\r\n", dash);
    assert "\r\n" == "\r" + "\n";
    Assoc("\r", "\n", dash);
    Assoc(a, "\r", "\n" + dash);
  }

  /** After the opening, a header line `a`, then `---`, then the rest. */
  lemma CrlfHeaderLines(a: string, b: string)
    requires '\n' !in a && '\r' !in a
    ensures Lines(a + "\r\n---\r\n" + b) == [a, "---"] + Lines(b)
  {
    var ar := a + "\r";
    var dcr := "---\r";
    var dash := dcr + "\n" + b;
    assert a + "\r\n---\r\n" + b == ar + "\n" + dash;
    assert Lines(ar + "\n" + dash) == [a] + Lines(dash) by {
      LinesAfterNewline(ar, dash);
      assert ar[..|a|] == a;
    }
    assert Lines(dash) == ["---"] + Lines(b) by {
      LinesAfterNewline(dcr, b);
      assert dcr[..3] == "---";
    }
  }

  /** In that text the `---` line starts two characters after `a`. */
  lemma CrlfHeaderStart(a: string, b: string)
    requires '\n' !in a
    ensures LineStart(a + "\r\n---\r\n" + b, 1) == |a| + 2
  {
    var ar := a + "\r";
    assert a + "\r\n---\r\n" + b == ar + "\n" + ("---\r\n" + b);
    LinesAfterNewline(ar, "---\r\n" + b);
  }

  /** Once the opening and the closing offset are known, the body is what follows the closing line. */
  lemma ExtractBody(yaml: string -> Option<Meta>, content: string, after: string, end: nat)
    requires AfterOpening(StripBom(content)) == Some(after)
    requires ClosingOffset(after) == Some(end)
    ensures ExtractWith(yaml, content).body == BodyAfter(after, end)
  {
  }

  lemma ExtractFixedBody(yaml: string -> Option<Meta>, content: string, after: string, end: nat)
    requires AfterOpening(StripBom(content)) == Some(after)
    requires FixedClosingOffset(after) == Some(end)
    ensures ExtractFixed(yaml, content).body == BodyAfter(after, end)
  {
  }

  /** The opening `---\r\n` is cut off, and the closing line is line 1 of the rest. */
  lemma CrlfOpening(a: string, b: string)
    requires '\n' !in a && '\r' !in a
    ensures AfterOpening(StripBom("---\r\n" + a + "\r\n---\r\n" + b)) == Some(a + "\r\n---\r\n" + b)
    ensures FirstClose(Lines(a + "\r\n---\r\n" + b), 1) == Some(1)
  {
    var content := "---\r\n" + a + "\r\n---\r\n" + b;
    var after := a + "\r\n---\r\n" + b;
    assert StripBom(content) == content by {
      assert content[0] == '-';
    }
    assert content[..5] == "---\r\n" && content[5..] == after;
    CrlfHeaderLines(a, b);
    TrimOfTrimmed("---");
  }

  /** The source's offset for that text: one short of where the `---` line starts. */
  lemma CrlfOffset(a: string, b: string)
    requires '\n' !in a && '\r' !in a
    ensures ClosingOffset(a + "\r\n---\r\n" + b) == Some(|a| + 1)
    ensures FixedClosingOffset(a + "\r\n---\r\n" + b) == Some(|a| + 2)
  {
    CrlfOpening(a, b);
    CrlfHeaderLines(a, b);
    CrlfHeaderStart(a, b);
    assert LineOffset(Lines(a + "\r\n---\r\n" + b), 1) == |a| + 1;
  }

  /** Cut at `|a| + 1`, the body starts at the `---` line; cut at `|a| + 2`, it is just `b`. */
  lemma CrlfBodies(a: string, b: string)
    ensures BodyAfter(a + "\r\n---\r\n" + b, |a| + 1) == "---\r\n" + b
    ensures BodyAfter(a + "\r\n---\r\n" + b, |a| + 2) == b
  {
    CrlfBodyAtClose(a, b);
    CrlfBodyPastClose(a, b);
  }

  /** Cut one short, at the `\n` that ends the header line: the body starts with the `---` line. */
  lemma CrlfBodyAtClose(a: string, b: string)
    ensures BodyAfter(a + "\r\n---\r\n" + b, |a| + 1) == "---\r\n" + b
  {
    var after := a + "\r\n---\r\n" + b;
    var dash := "---\r\n" + b;
    CrlfSplit(a, b);
    var ar, nd := a + "\r", "\n" + dash;
    assert after[|ar|..] == nd;
    assert nd[1..] == dash;
    assert after[|ar| + 1..] == dash;
    FindCharIs(nd, '\n', 0);
  }

  /** Cut at the `---` line itself: the first line break ends it, and the body is `b`. */
  lemma CrlfBodyPastClose(a: string, b: string)
    ensures BodyAfter(a + "\r\n---\r\n" + b, |a| + 2) == b
  {
    var after := a + "\r\n---\r\n" + b;
    var dash := "---\r\n" + b;
    CrlfSplit(a, b);
    var arn := a + "\r\n";
    assert after[|arn|..] == dash;
    var dcr, nb := "---\r", "\n" + b;
    assert dash == dcr + nb;
    FindCharAfter(dcr, '\n', nb);
    assert dash[5..] == b;
    assert after[|arn| + 5..] == b;
  }

  /**
   * With `\r\n` endings the offset is one short per header line: after one header line `a`, the
   * source cuts one character before the closing line, so the body keeps the closing `---`.
   */
  lemma CrlfCloseLeaks(yaml: string -> Option<Meta>, a: string, b: string)
    requires '\n' !in a && '\r' !in a
    ensures ExtractWith(yaml, "---\r\n" + a + "\r\n---\r\n" + b).body == "---\r\n" + b
  {
    CrlfOpening(a, b);
    CrlfOffset(a, b);
    CrlfBodies(a, b);
    ExtractBody(yaml, "---\r\n" + a + "\r\n---\r\n" + b, a + "\r\n---\r\n" + b, |a| + 1);
  }

  /** On the same text the corrected extractor cuts at the closing line and returns just `b`. */
  lemma CrlfFixedDropsClose(yaml: string -> Option<Meta>, a: string, b: string)
    requires '\n' !in a && '\r' !in a
    ensures ExtractFixed(yaml, "---\r\n" + a + "\r\n---\r\n" + b).body == b
  {
    CrlfOpening(a, b);
    CrlfOffset(a, b);
    CrlfBodies(a, b);
    ExtractFixedBody(yaml, "---\r\n" + a + "\r\n---\r\n" + b, a + "\r\n---\r\n" + b, |a| + 2);
  }
}
