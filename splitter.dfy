/**
 * The slide splitter of presemd (`split`, `split_by_heading_inference`).
 *
 * A document body becomes a list of slide texts in four passes: `---` lines padded by blank
 * lines become break lines; runs of three or more blank lines become one break line; the
 * text is cut at the break lines and each piece trimmed; each piece is cut again before every
 * `# ` heading that follows content, outside fenced code.
 */
module Splitter {
  import opened Wrappers
  import opened Strings

  /** The line that stands for a slide break between the passes (NUL, `SLIDE_BREAK`, NUL). */
  const Sentinel: string := "\0SLIDE_BREAK\0"

  /** NUL is not whitespace, so the break line is never blank. */
  lemma SentinelNotBlank()
    ensures !IsBlank(Sentinel)
  {
    assert TrimStart(Sentinel) == Sentinel;
    assert TrimEnd(Sentinel) == Sentinel;
  }

  /** The lines of `s` that `keep` accepts, in order. */
  function Filter(s: seq<string>, keep: string -> bool): (r: seq<string>)
    ensures |r| <= |s|
  {
    if s == [] then [] else Filter(s[..|s| - 1], keep) + (if keep(s[|s| - 1]) then [s[|s| - 1]] else [])
  }

  lemma {:induction false} FilterAppend(a: seq<string>, b: seq<string>, keep: string -> bool)
    ensures Filter(a + b, keep) == Filter(a, keep) + Filter(b, keep)
    decreases |b|
  {
    if b == [] {
      assert a + b == a;
    } else {
      assert (a + b)[..|a + b| - 1] == a + b[..|b| - 1];
      FilterAppend(a, b[..|b| - 1], keep);
    }
  }

  // ---------------------------------------------------------------------------------------
  // Line endings
  // ---------------------------------------------------------------------------------------

  /** Replacing `\r\n` by `\n` keeps every line break, so line numbers do not move. */
  lemma {:induction false} CrlfKeepsNewlines(s: string)
    ensures Count(ReplaceCrlf(s), '\n') == Count(s, '\n')
    decreases |s|
  {
    if |s| >= 2 && s[0] == '\r' && s[1] == '\n' {
      CrlfKeepsNewlines(s[2..]);
      assert s == "\r\n" + s[2..];
    } else if s != [] {
      CrlfKeepsNewlines(s[1..]);
      assert s == [s[0]] + s[1..];
    }
  }

  /** A text without carriage returns is left as it is. */
  lemma {:induction false} NoCrUnchanged(s: string)
    requires '\r' !in s
    ensures ReplaceCrlf(s) == s
    decreases |s|
  {
    if s != [] {
      assert s == [s[0]] + s[1..];
      NoCrUnchanged(s[1..]);
    }
  }

  // ---------------------------------------------------------------------------------------
  // Pass 1: `---` separators
  // ---------------------------------------------------------------------------------------

  /** `is_dash_separator`: at least three bytes, all of them `-`. */
  predicate IsDashSeparator(t: string) {
    ByteLen(t) >= 3 && forall k :: 0 <= k < |t| ==> t[k] == '-'
  }

  /** What precedes line `i` counts as blank: the start of the body, a blank line, or a break. */
  predicate PrevBlank(i: nat, out: seq<string>) {
    i == 0 || (out != [] && IsBlank(out[|out| - 1])) || (out != [] && out[|out| - 1] == Sentinel)
  }

  /** What follows line `i` counts as blank: the end of the body or a blank line. */
  predicate NextBlank(lines: seq<string>, i: nat) {
    i + 1 >= |lines| || IsBlank(lines[i + 1])
  }

  /** Line `i` is a `---` with blank on both sides, so it becomes a break. */
  predicate BreaksAt(lines: seq<string>, i: nat, out: seq<string>)
    requires i < |lines|
  {
    IsDashSeparator(Trim(lines[i])) && PrevBlank(i, out) && NextBlank(lines, i)
  }

  /**
   * The first pass from line `i` with `out` written so far: a breaking `---` replaces the
   * blank line before it (if one was written) and the blank line after it (if there is one)
   * by a single break line; every other line is copied.
   */
  function MarkFrom(lines: seq<string>, i: nat, out: seq<string>): seq<string>
    requires i <= |lines|
    decreases |lines| - i
  {
    if i == |lines| then out
    else if BreaksAt(lines, i, out) then MarkFrom(lines, i + Skip(lines, i), DropBlank(out) + [Sentinel])
    else MarkFrom(lines, i + 1, out + [lines[i]])
  }

  /** The output without its last line when that line is blank. */
  function DropBlank(out: seq<string>): seq<string> {
    if out != [] && IsBlank(out[|out| - 1]) then out[..|out| - 1] else out
  }

  /** The lines a breaking `---` at `i` consumes: itself, and the blank line after it if any. */
  function Skip(lines: seq<string>, i: nat): (n: nat)
    requires i < |lines|
    ensures 1 <= n && i + n <= |lines|
  {
    if i + 1 < |lines| && IsBlank(lines[i + 1]) then 2 else 1
  }

  /** The first pass of `split`: a loop over the lines that pushes to and pops from the output. */
  method MarkSeparators(lines: seq<string>) returns (out: seq<string>)
    ensures out == MarkFrom(lines, 0, [])
  {
    out := [];
    var i := 0;
    ghost var marked := MarkFrom(lines, 0, []);
    while i < |lines|
      invariant i <= |lines|
      invariant MarkFrom(lines, i, out) == marked
      decreases |lines| - i
    {
      var trimmed := Trim(lines[i]);
      if IsDashSeparator(trimmed) {
        var prevBlank := i == 0 || (out != [] && IsBlank(out[|out| - 1]))
          || (out != [] && out[|out| - 1] == Sentinel);
        var nextBlank := i + 1 >= |lines| || IsBlank(lines[i + 1]);
        if prevBlank && nextBlank {
          MarkFromBreak(lines, i, out);
          if out != [] && IsBlank(out[|out| - 1]) {
            out := out[..|out| - 1];
          }
          out := out + [Sentinel];
          if i + 1 < |lines| && IsBlank(lines[i + 1]) {
            i := i + 1;
          }
          i := i + 1;
          continue;
        }
      }
      MarkFromCopy(lines, i, out);
      out := out + [lines[i]];
      i := i + 1;
    }
  }

  /** A breaking `---` replaces a blank line before it and one after it by a single break. */
  lemma MarkFromBreak(lines: seq<string>, i: nat, out: seq<string>)
    requires i < |lines| && BreaksAt(lines, i, out)
    ensures MarkFrom(lines, i, out) == MarkFrom(lines, i + Skip(lines, i), DropBlank(out) + [Sentinel])
  {
  }

  /** Any other line is copied. */
  lemma MarkFromCopy(lines: seq<string>, i: nat, out: seq<string>)
    requires i < |lines| && !BreaksAt(lines, i, out)
    ensures MarkFrom(lines, i, out) == MarkFrom(lines, i + 1, out + [lines[i]])
  {
  }

  /** A line that carries text through the first pass: not blank, not `---`, not a break. */
  predicate Carries(line: string) {
    !IsBlank(line) && !IsDashSeparator(Trim(line)) && line != Sentinel
  }

  /** A filter drops every line it does not keep. */
  lemma {:induction false} FilterNone(s: seq<string>, keep: string -> bool)
    requires forall k :: 0 <= k < |s| ==> !keep(s[k])
    ensures Filter(s, keep) == []
  {
    if s != [] {
      FilterNone(s[..|s| - 1], keep);
    }
  }

  /** A filter that drops blank lines and breaks loses nothing when a break replaces a blank line. */
  lemma BreakOutputKeeps(out: seq<string>, keep: string -> bool)
    requires !keep(Sentinel)
    requires forall l :: IsBlank(l) ==> !keep(l)
    ensures Filter(DropBlank(out) + [Sentinel], keep) == Filter(out, keep)
  {
    var kept := DropBlank(out);
    FilterAppend(kept, [Sentinel], keep);
    FilterNone([Sentinel], keep);
    if kept != out {
      var last := out[|out| - 1];
      assert out == kept + [last];
      FilterAppend(kept, [last], keep);
      FilterNone([last], keep);
    }
  }

  /** Lines the filter drops can be skipped. */
  lemma SkipDropped(lines: seq<string>, i: nat, n: nat, keep: string -> bool)
    requires 1 <= n <= 2 && i + n <= |lines|
    requires !keep(lines[i]) && (n == 2 ==> !keep(lines[i + 1]))
    ensures Filter(lines[i..], keep) == Filter(lines[i + n..], keep)
  {
    var dropped := lines[i..i + n];
    assert lines[i..] == dropped + lines[i + n..];
    FilterAppend(dropped, lines[i + n..], keep);
    FilterNone(dropped, keep);
  }

  /** Copying line `i` moves it from the input side to the output side. */
  lemma CopyKeeps(lines: seq<string>, i: nat, out: seq<string>, keep: string -> bool)
    requires i < |lines|
    ensures Filter(out + [lines[i]], keep) + Filter(lines[i + 1..], keep) ==
      Filter(out, keep) + Filter(lines[i..], keep)
  {
    var l := lines[i];
    var rest := lines[i + 1..];
    assert lines[i..] == [l] + rest;
    calc {
      Filter(out + [l], keep) + Filter(rest, keep);
      { FilterAppend(out, [l], keep); }
      (Filter(out, keep) + Filter([l], keep)) + Filter(rest, keep);
      Filter(out, keep) + (Filter([l], keep) + Filter(rest, keep));
      { FilterAppend([l], rest, keep); }
      Filter(out, keep) + Filter([l] + rest, keep);
    }
  }

  /** `keep` drops every line that does not carry text. */
  ghost predicate KeepsOnlyText(keep: string -> bool) {
    forall l {:trigger Carries(l)} :: !Carries(l) ==> !keep(l)
  }

  /** From line `i` on, the first pass keeps every line that a filter keeping only text lines keeps, in order. */
  lemma {:induction false} MarkKeepsFiltered(lines: seq<string>, i: nat, out: seq<string>, keep: string -> bool)
    requires i <= |lines| && KeepsOnlyText(keep)
    ensures Filter(MarkFrom(lines, i, out), keep) == Filter(out, keep) + Filter(lines[i..], keep)
    decreases |lines| - i
  {
    if i == |lines| {
      assert lines[i..] == [];
    } else if BreaksAt(lines, i, out) {
      MarkKeepsFiltered(lines, i + Skip(lines, i), DropBlank(out) + [Sentinel], keep);
      BreakKeeps(lines, i, out, keep);
    } else {
      MarkKeepsFiltered(lines, i + 1, out + [lines[i]], keep);
      CopyKeeps(lines, i, out, keep);
    }
  }

  /** A break moves no kept line: the `---` and the blank lines around it are all dropped. */
  lemma BreakKeeps(lines: seq<string>, i: nat, out: seq<string>, keep: string -> bool)
    requires i < |lines| && BreaksAt(lines, i, out) && KeepsOnlyText(keep)
    ensures Filter(DropBlank(out) + [Sentinel], keep) + Filter(lines[i + Skip(lines, i)..], keep) ==
      Filter(out, keep) + Filter(lines[i..], keep)
  {
    BlankDropped(keep);
    assert !Carries(Sentinel);
    BreakOutputKeeps(out, keep);
    assert !Carries(lines[i]);
    assert Skip(lines, i) == 2 ==> IsBlank(lines[i + 1]);
    SkipDropped(lines, i, Skip(lines, i), keep);
  }

  /** A filter keeping only text lines drops blank lines. */
  lemma BlankDropped(keep: string -> bool)
    requires KeepsOnlyText(keep)
    ensures forall l :: IsBlank(l) ==> !keep(l)
  {
    forall l | IsBlank(l)
      ensures !keep(l)
    {
      assert !Carries(l);
    }
  }

  /** The first pass only drops blank lines and `---` lines, and only adds break lines. */
  lemma MarkKeeps(lines: seq<string>)
    ensures Filter(MarkFrom(lines, 0, []), Carries) == Filter(lines, Carries)
  {
    MarkKeepsFiltered(lines, 0, [], Carries);
    assert lines[0..] == lines;
  }

  /** Without `---` lines the first pass copies every line. */
  lemma {:induction false} MarkIdentity(lines: seq<string>, i: nat, out: seq<string>)
    requires i <= |lines|
    requires forall k :: i <= k < |lines| ==> !IsDashSeparator(Trim(lines[k]))
    ensures MarkFrom(lines, i, out) == out + lines[i..]
    decreases |lines| - i
  {
    if i < |lines| {
      MarkIdentity(lines, i + 1, out + [lines[i]]);
      assert lines[i..] == [lines[i]] + lines[i + 1..];
    }
  }

  /** `Slide one`, blank, `---`, blank, `Slide two`: the `---` and both blanks become one break. */
  lemma DashBetweenBlanks(a: string, e1: string, d: string, e2: string, b: string)
    requires Carries(a) && Carries(b) && IsBlank(e1) && IsBlank(e2) && IsDashSeparator(Trim(d))
    ensures MarkFrom([a, e1, d, e2, b], 0, []) == [a, Sentinel, b]
  {
    var lines := [a, e1, d, e2, b];
    SentinelNotBlank();
    assert !IsDashSeparator(Trim(e1)) by {
      BlankIffWhitespace(e1);
      assert Trim(e1) == [];
    }
    assert lines[0] == a && lines[1] == e1 && lines[2] == d && lines[3] == e2 && lines[4] == b;
    assert !BreaksAt(lines, 0, []) && !BreaksAt(lines, 1, [a]);
    assert BreaksAt(lines, 2, [a, e1]) && Skip(lines, 2) == 2;
    assert DropBlank([a, e1]) == [a] by {
      assert [a, e1][..1] == [a];
    }
    assert !BreaksAt(lines, 4, [a, Sentinel]);
    calc {
      MarkFrom(lines, 0, []);
      { assert [] + [a] == [a]; }
      MarkFrom(lines, 1, [a]);
      { assert [a] + [e1] == [a, e1]; }
      MarkFrom(lines, 2, [a, e1]);
      { assert [a] + [Sentinel] == [a, Sentinel]; }
      MarkFrom(lines, 4, [a, Sentinel]);
      { assert [a, Sentinel] + [b] == [a, Sentinel, b]; }
      MarkFrom(lines, 5, [a, Sentinel, b]);
    }
  }

  // ---------------------------------------------------------------------------------------
  // Pass 2: runs of blank lines
  // ---------------------------------------------------------------------------------------

  /** The lines written by the second pass and its count of consecutive blank lines. */
  datatype Runs = Runs(out: seq<string>, blanks: nat)

  /** `Vec::pop`: the last line goes, if there is one. */
  function Pop(s: seq<string>): seq<string> {
    if s == [] then [] else s[..|s| - 1]
  }

  /**
   * One line of the second pass: a break resets the count; the first two blank lines of a
   * run are copied; the third replaces them by a break; later ones are dropped.
   */
  function CollapseStep(r: Runs, line: string): Runs {
    if line == Sentinel then Runs(r.out + [line], 0)
    else if IsBlank(line) then
      if r.blanks + 1 < 3 then Runs(r.out + [line], r.blanks + 1)
      else if r.blanks + 1 == 3 then Runs(Pop(Pop(r.out)) + [Sentinel], 3)
      else Runs(r.out, r.blanks + 1)
    else Runs(r.out + [line], 0)
  }

  /** The second pass over the given lines. */
  function Collapse(lines: seq<string>): Runs {
    if lines == [] then Runs([], 0) else CollapseStep(Collapse(lines[..|lines| - 1]), lines[|lines| - 1])
  }

  /** The second pass of `split`: a `for` loop with a blank-line counter. */
  method CollapseBlankRuns(lines: seq<string>) returns (finalLines: seq<string>)
    ensures finalLines == Collapse(lines).out
  {
    finalLines := [];
    var blankCount := 0;
    for k := 0 to |lines|
      invariant Runs(finalLines, blankCount) == Collapse(lines[..k])
    {
      var line := lines[k];
      assert lines[..k + 1][..k] == lines[..k];
      if line == Sentinel {
        blankCount := 0;
        finalLines := finalLines + [line];
        continue;
      }
      if IsBlank(line) {
        blankCount := blankCount + 1;
        if blankCount < 3 {
          finalLines := finalLines + [line];
        } else if blankCount == 3 {
          if finalLines != [] {
            finalLines := finalLines[..|finalLines| - 1];
          }
          if finalLines != [] {
            finalLines := finalLines[..|finalLines| - 1];
          }
          finalLines := finalLines + [Sentinel];
        }
      } else {
        blankCount := 0;
        finalLines := finalLines + [line];
      }
    }
    assert lines[..|lines|] == lines;
  }

  /** The last `n` lines of `s` are blank. */
  predicate EndsBlank(s: seq<string>, n: nat) {
    n <= |s| && forall j :: |s| - n <= j < |s| ==> IsBlank(s[j])
  }

  /** No three blank lines in a row. */
  predicate NoThreeBlanks(s: seq<string>) {
    forall j :: 0 <= j && j + 2 < |s| ==> !(IsBlank(s[j]) && IsBlank(s[j + 1]) && IsBlank(s[j + 2]))
  }

  /** What the second pass keeps true: the count is the length of the trailing blank run. */
  predicate RunsInvariant(r: Runs) {
    NoThreeBlanks(r.out) && (r.blanks <= 2 ==> EndsBlank(r.out, r.blanks) && !EndsBlank(r.out, r.blanks + 1))
  }

  /** Appending a line that is not blank ends every blank run. */
  lemma PushTextInvariant(o: seq<string>, line: string)
    requires NoThreeBlanks(o) && !IsBlank(line)
    ensures NoThreeBlanks(o + [line]) && !EndsBlank(o + [line], 1)
  {
    var o' := o + [line];
    forall j | 0 <= j && j + 2 < |o'|
      ensures !(IsBlank(o'[j]) && IsBlank(o'[j + 1]) && IsBlank(o'[j + 2]))
    {
      if j + 2 < |o| {
        assert o'[j] == o[j] && o'[j + 1] == o[j + 1] && o'[j + 2] == o[j + 2];
      } else {
        assert o'[j + 2] == line;
      }
    }
    assert o'[|o'| - 1] == line;
  }

  /** Appending a blank line to a run of `b <= 1` blank lines makes a run of `b + 1`. */
  lemma PushBlankInvariant(o: seq<string>, b: nat, line: string)
    requires NoThreeBlanks(o) && b <= 1 && EndsBlank(o, b) && !EndsBlank(o, b + 1) && IsBlank(line)
    ensures NoThreeBlanks(o + [line]) && EndsBlank(o + [line], b + 1) && !EndsBlank(o + [line], b + 2)
  {
    var o' := o + [line];
    assert |o| > b ==> !IsBlank(o[|o| - 1 - b]);
    forall j | 0 <= j && j + 2 < |o'|
      ensures !(IsBlank(o'[j]) && IsBlank(o'[j + 1]) && IsBlank(o'[j + 2]))
    {
      if j + 2 < |o| {
        assert o'[j] == o[j] && o'[j + 1] == o[j + 1] && o'[j + 2] == o[j + 2];
      } else if b == 0 {
        assert o'[j + 1] == o[|o| - 1];
      } else {
        assert o'[j] == o[|o| - 2];
      }
    }
    forall j | |o'| - (b + 1) <= j < |o'|
      ensures IsBlank(o'[j])
    {
      if j < |o| {
        assert o'[j] == o[j];
      }
    }
    if |o'| >= b + 2 {
      assert o'[|o'| - (b + 2)] == o[|o| - 1 - b];
    }
  }

  /** Replacing the last two lines by a break keeps the lines free of three blanks in a row. */
  lemma ReplaceRunInvariant(o: seq<string>)
    requires NoThreeBlanks(o) && |o| >= 2
    ensures NoThreeBlanks(o[..|o| - 2] + [Sentinel])
  {
    SentinelNotBlank();
    var p := o[..|o| - 2];
    var o' := p + [Sentinel];
    forall j | 0 <= j && j + 2 < |o'|
      ensures !(IsBlank(o'[j]) && IsBlank(o'[j + 1]) && IsBlank(o'[j + 2]))
    {
      if j + 2 < |p| {
        assert o'[j] == o[j] && o'[j + 1] == o[j + 1] && o'[j + 2] == o[j + 2];
      } else {
        assert o'[j + 2] == Sentinel;
      }
    }
  }

  lemma CollapseStepInvariant(r: Runs, line: string)
    requires RunsInvariant(r)
    ensures RunsInvariant(CollapseStep(r, line))
    ensures r.blanks == 2 && line != Sentinel && IsBlank(line) ==> EndsBlank(r.out, 2)
  {
    SentinelNotBlank();
    if line == Sentinel || !IsBlank(line) {
      PushTextInvariant(r.out, line);
    } else if r.blanks + 1 < 3 {
      PushBlankInvariant(r.out, r.blanks, line);
    } else if r.blanks + 1 == 3 {
      assert |r.out| >= 2 && Pop(Pop(r.out)) == r.out[..|r.out| - 2];
      ReplaceRunInvariant(r.out);
    }
  }

  /** Every prefix of the second pass keeps its invariant. */
  lemma {:induction false} CollapseInvariant(lines: seq<string>)
    ensures RunsInvariant(Collapse(lines))
  {
    if lines != [] {
      CollapseInvariant(lines[..|lines| - 1]);
      CollapseStepInvariant(Collapse(lines[..|lines| - 1]), lines[|lines| - 1]);
    }
  }

  /** A line of text: neither blank nor a break. */
  predicate IsText(line: string) {
    !IsBlank(line) && line != Sentinel
  }

  /**
   * After the second pass no three blank lines follow each other, and the lines of text are
   * exactly those of its input, in order.
   */
  lemma {:induction false} CollapseKeepsText(lines: seq<string>)
    ensures NoThreeBlanks(Collapse(lines).out)
    ensures Filter(Collapse(lines).out, IsText) == Filter(lines, IsText)
  {
    CollapseInvariant(lines);
    if lines != [] {
      var init, line := lines[..|lines| - 1], lines[|lines| - 1];
      CollapseKeepsText(init);
      CollapseInvariant(init);
      assert lines == init + [line];
      CollapseStepText(Collapse(init), line);
      FilterAppend(init, [line], IsText);
    }
  }

  /** One line of the second pass adds to the text what the line itself carries. */
  lemma CollapseStepText(r: Runs, line: string)
    requires RunsInvariant(r)
    ensures Filter(CollapseStep(r, line).out, IsText) == Filter(r.out, IsText) + Filter([line], IsText)
  {
    CollapseStepInvariant(r, line);
    SentinelNotBlank();
    if line == Sentinel || !IsBlank(line) || r.blanks + 1 < 3 {
      FilterAppend(r.out, [line], IsText);
    } else {
      FilterNone([line], IsText);
      if r.blanks + 1 == 3 {
        var o := r.out;
        var p := o[..|o| - 2];
        assert Pop(Pop(o)) == p;
        assert o == p + [o[|o| - 2], o[|o| - 1]];
        FilterAppend(p, [o[|o| - 2], o[|o| - 1]], IsText);
        FilterNone([o[|o| - 2], o[|o| - 1]], IsText);
        FilterAppend(p, [Sentinel], IsText);
        FilterNone([Sentinel], IsText);
      }
    }
  }

  /** `Slide one`, three blank lines, `Slide two`: the blank run becomes one break. */
  lemma BlankRunBreaks(a: string, e1: string, e2: string, e3: string, b: string)
    requires IsText(a) && IsText(b) && IsBlank(e1) && IsBlank(e2) && IsBlank(e3)
    ensures Collapse([a, e1, e2, e3, b]).out == [a, Sentinel, b]
  {
    ThirdBlankBreaks(a, e1, e2, e3);
    CollapseSnoc([a, e1, e2, e3], b, [a, e1, e2, e3, b]);
    assert [a, Sentinel] + [b] == [a, Sentinel, b];
  }

  /** The first two blank lines after text are copied. */
  lemma TwoBlanksKept(a: string, e1: string, e2: string)
    requires IsText(a) && IsBlank(e1) && IsBlank(e2)
    ensures Collapse([a, e1, e2]) == Runs([a, e1, e2], 2)
  {
    SentinelNotBlank();
    CollapseSnoc([], a, [a]);
    CollapseSnoc([a], e1, [a, e1]);
    CollapseSnoc([a, e1], e2, [a, e1, e2]);
  }

  /** The third blank line takes back the two before it and leaves a break. */
  lemma ThirdBlankBreaks(a: string, e1: string, e2: string, e3: string)
    requires IsText(a) && IsBlank(e1) && IsBlank(e2) && IsBlank(e3)
    ensures Collapse([a, e1, e2, e3]) == Runs([a, Sentinel], 3)
  {
    SentinelNotBlank();
    TwoBlanksKept(a, e1, e2);
    CollapseSnoc([a, e1, e2], e3, [a, e1, e2, e3]);
    assert Pop(Pop([a, e1, e2])) == [a];
  }

  lemma CollapseSnoc(init: seq<string>, line: string, lines: seq<string>)
    requires lines == init + [line]
    ensures Collapse(lines) == CollapseStep(Collapse(init), line)
  {
    assert lines[..|lines| - 1] == init;
  }

  // ---------------------------------------------------------------------------------------
  // Pass 3: cutting at the breaks
  // ---------------------------------------------------------------------------------------

  /** The lines joined by newlines, cut at every break, each piece trimmed. */
  function Chunks(finalLines: seq<string>): (r: seq<string>)
    ensures forall k :: 0 <= k < |r| ==> Trim(r[k]) == r[k]
  {
    var pieces := SplitOn(Join(finalLines, "\n"), Sentinel);
    var r := seq(|pieces|, k requires 0 <= k < |pieces| => Trim(pieces[k]));
    assert forall k :: 0 <= k < |r| ==> Trim(r[k]) == r[k] by {
      forall k | 0 <= k < |r|
        ensures Trim(r[k]) == r[k]
      {
        TrimIdempotent(pieces[k]);
      }
    }
    r
  }

  /** The runs of lines between break lines, in order: one more run than there are breaks. */
  function Groups(lines: seq<string>): (r: seq<seq<string>>)
    ensures |r| >= 1
    ensures forall k :: 0 <= k < |r| ==> Sentinel !in r[k]
    ensures Ungroup(r) == lines
    decreases |lines|
  {
    if lines == [] then [[]]
    else
      var rest := Groups(lines[1..]);
      assert lines == [lines[0]] + lines[1..];
      if lines[0] == Sentinel then [[]] + rest
      else [[lines[0]] + rest[0]] + rest[1..]
  }

  /** The runs put back together, a break line between each two. */
  function Ungroup(groups: seq<seq<string>>): seq<string> {
    if groups == [] then []
    else if |groups| == 1 then groups[0]
    else groups[0] + [Sentinel] + Ungroup(groups[1..])
  }

  /** NUL occurs in the lines only as part of break lines. */
  predicate NulOnlyInBreaks(lines: seq<string>) {
    forall k :: 0 <= k < |lines| ==> lines[k] == Sentinel || '\0' !in lines[k]
  }

  /** A piece is its run's text, with the newline on either side of it perhaps left on. */
  predicate Padded(piece: string, core: string) {
    piece == core || piece == "\n" + core || piece == core + "\n" || piece == "\n" + core + "\n"
  }

  /**
   * Each piece is its run's text, perhaps with newlines left on; the first piece has none in
   * front, and none behind when its run is empty.
   */
  predicate PiecesMatch(p: seq<string>, g: seq<seq<string>>) {
    && |p| == |g| && |p| >= 1
    && (p[0] == Join(g[0], "\n") || (g[0] != [] && p[0] == Join(g[0], "\n") + "\n"))
    && forall k :: 1 <= k < |p| ==> Padded(p[k], Join(g[k], "\n"))
  }

  /**
   * Cutting the joined lines at the break text gives one piece per run: the run's own lines
   * joined, with the newlines next to the break lines left on. Nothing else can be cut, since
   * NUL, the break text's first character, occurs nowhere else.
   */
  lemma {:induction false} PiecesOfGroups(lines: seq<string>)
    requires NulOnlyInBreaks(lines)
    ensures PiecesMatch(SplitOn(Join(lines, "\n"), Sentinel), Groups(lines))
    decreases |lines|
  {
    if lines != [] {
      var l, rest := lines[0], lines[1..];
      assert lines == [l] + rest;
      if rest == [] {
        if l == Sentinel {
          SplitOnLead([], Sentinel);
          assert Sentinel + [] == Sentinel;
        } else {
          SplitOnPrefix(l, [], Sentinel);
          assert l + [] == l;
        }
      } else {
        assert NulOnlyInBreaks(rest) by {
          forall k | 0 <= k < |rest| ensures rest[k] == Sentinel || '\0' !in rest[k] {
            assert rest[k] == lines[k + 1];
          }
        }
        PiecesOfGroups(rest);
        JoinCons(l, rest, "\n");
        if l == Sentinel {
          PiecesAfterBreak(rest);
        } else {
          PiecesAfterText(l, rest);
        }
      }
    }
  }

  /** A break line in front: an empty first piece, and the first run gains a newline in front. */
  lemma PiecesAfterBreak(rest: seq<string>)
    requires rest != [] && PiecesMatch(SplitOn(Join(rest, "\n"), Sentinel), Groups(rest))
    ensures PiecesMatch(SplitOn(Sentinel + "\n" + Join(rest, "\n"), Sentinel), Groups([Sentinel] + rest))
  {
    var jr := Join(rest, "\n");
    var q := SplitOn(jr, Sentinel);
    assert ([Sentinel] + rest)[1..] == rest;
    assert Sentinel + "\n" + jr == Sentinel + ("\n" + jr);
    SplitOnLead("\n" + jr, Sentinel);
    SplitOnPrefix("\n", jr, Sentinel);
    MatchAfterBreak(q, Groups(rest));
  }

  lemma MatchAfterBreak(q: seq<string>, g: seq<seq<string>>)
    requires PiecesMatch(q, g)
    ensures PiecesMatch([[]] + ([("\n" + q[0])] + q[1..]), [[]] + g)
  {
    var p, g' := [[]] + ([("\n" + q[0])] + q[1..]), [[]] + g;
    assert Join(g'[0], "\n") == [];
    forall k | 1 <= k < |p|
      ensures Padded(p[k], Join(g'[k], "\n"))
    {
      assert g'[k] == g[k - 1];
      if k >= 2 {
        assert p[k] == q[k - 1];
      }
    }
  }

  /** A text line in front joins the first run, and the first piece with it. */
  lemma PiecesAfterText(l: string, rest: seq<string>)
    requires rest != [] && l != Sentinel && '\0' !in l
    requires PiecesMatch(SplitOn(Join(rest, "\n"), Sentinel), Groups(rest))
    ensures PiecesMatch(SplitOn(l + "\n" + Join(rest, "\n"), Sentinel), Groups([l] + rest))
  {
    var jr := Join(rest, "\n");
    assert ([l] + rest)[1..] == rest;
    SplitOnPrefix(l + "\n", jr, Sentinel);
    MatchAfterText(l, SplitOn(jr, Sentinel), Groups(rest));
  }

  lemma MatchAfterText(l: string, q: seq<string>, g: seq<seq<string>>)
    requires PiecesMatch(q, g)
    ensures PiecesMatch([l + "\n" + q[0]] + q[1..], [[l] + g[0]] + g[1..])
  {
    var p, g' := [l + "\n" + q[0]] + q[1..], [[l] + g[0]] + g[1..];
    if g[0] != [] {
      JoinCons(l, g[0], "\n");
    } else {
      assert [l] + g[0] == [l];
    }
    forall k | 1 <= k < |p|
      ensures Padded(p[k], Join(g'[k], "\n"))
    {
      assert p[k] == q[k] && g'[k] == g[k];
    }
  }

  /** A piece trims to what its run's text trims to. */
  lemma PaddedTrim(piece: string, core: string)
    requires Padded(piece, core)
    ensures Trim(piece) == Trim(core)
  {
    var nl := "\n";
    assert AllWhitespace(nl) && AllWhitespace([]);
    if piece == core {
      TrimAround([], core, []);
      assert [] + core + [] == core;
    } else if piece == nl + core {
      TrimAround(nl, core, []);
      assert nl + core + [] == piece;
    } else if piece == core + nl {
      TrimAround([], core, nl);
      assert [] + core + nl == piece;
    } else {
      TrimAround(nl, core, nl);
    }
  }

  /**
   * The third pass: when NUL occurs only in break lines, each piece is the trimmed text of one
   * run of lines between breaks.
   */
  lemma ChunksGroups(lines: seq<string>)
    requires NulOnlyInBreaks(lines)
    ensures |Chunks(lines)| == |Groups(lines)|
    ensures forall k :: 0 <= k < |Chunks(lines)| ==> Chunks(lines)[k] == Trim(Join(Groups(lines)[k], "\n"))
  {
    PiecesOfGroups(lines);
    var p, g := SplitOn(Join(lines, "\n"), Sentinel), Groups(lines);
    forall k | 0 <= k < |p|
      ensures Trim(p[k]) == Trim(Join(g[k], "\n"))
    {
      var core := Join(g[k], "\n");
      if k == 0 {
        assert Padded(p[0], core);
      }
      PaddedTrim(p[k], core);
    }
  }

  /** A run without break lines in front of the rest joins the rest's first run. */
  lemma {:induction false} GroupsOfRun(g: seq<string>, rest: seq<string>)
    requires Sentinel !in g
    ensures Groups(g + rest) == [g + Groups(rest)[0]] + Groups(rest)[1..]
    decreases |g|
  {
    if g == [] {
      assert g + rest == rest;
      assert [] + Groups(rest)[0] == Groups(rest)[0];
      assert Groups(rest) == [Groups(rest)[0]] + Groups(rest)[1..];
    } else {
      GroupsOfRun(g[1..], rest);
      assert (g + rest)[1..] == g[1..] + rest;
      assert [g[0]] + (g[1..] + Groups(rest)[0]) == g + Groups(rest)[0];
    }
  }

  /** Two runs with one break line between them are the two runs. */
  lemma TwoGroups(ga: seq<string>, gb: seq<string>)
    requires Sentinel !in ga && Sentinel !in gb
    ensures Groups(ga + [Sentinel] + gb) == [ga, gb]
  {
    assert ga + [Sentinel] + gb == ga + ([Sentinel] + gb);
    GroupsOfRun(ga, [Sentinel] + gb);
    assert ([Sentinel] + gb)[1..] == gb;
    GroupsOfRun(gb, []);
    assert gb + [] == gb && ga + [] == ga;
  }

  /** Keeping a prefix, or adding a line that is a break or holds no NUL, keeps NUL in breaks only. */
  lemma NulSnoc(o: seq<string>, n: nat, l: string)
    requires NulOnlyInBreaks(o) && n <= |o| && (l == Sentinel || '\0' !in l)
    ensures NulOnlyInBreaks(o[..n]) && NulOnlyInBreaks(o[..n] + [l])
  {
    var o' := o[..n] + [l];
    forall k | 0 <= k < |o'| ensures o'[k] == Sentinel || '\0' !in o'[k] {
      if k < n {
        assert o'[k] == o[k];
      }
    }
  }

  /** The first pass writes only lines of its input and break lines. */
  lemma {:induction false} MarkFromNul(lines: seq<string>, i: nat, out: seq<string>)
    requires i <= |lines| && NulOnlyInBreaks(lines) && NulOnlyInBreaks(out)
    ensures NulOnlyInBreaks(MarkFrom(lines, i, out))
    decreases |lines| - i, 1
  {
    if i < |lines| {
      if BreaksAt(lines, i, out) {
        MarkBreakNul(lines, i, out);
      } else {
        MarkCopyNul(lines, i, out);
      }
    }
  }

  /** A breaking `---` writes a break line. */
  lemma {:induction false} MarkBreakNul(lines: seq<string>, i: nat, out: seq<string>)
    requires i < |lines| && BreaksAt(lines, i, out) && NulOnlyInBreaks(lines) && NulOnlyInBreaks(out)
    ensures NulOnlyInBreaks(MarkFrom(lines, i, out))
    decreases |lines| - i, 0
  {
    BreakNul(out);
    MarkFromNul(lines, i + Skip(lines, i), DropBlank(out) + [Sentinel]);
    MarkFromBreak(lines, i, out);
  }

  /** Any other line is copied from the input. */
  lemma {:induction false} MarkCopyNul(lines: seq<string>, i: nat, out: seq<string>)
    requires i < |lines| && !BreaksAt(lines, i, out) && NulOnlyInBreaks(lines) && NulOnlyInBreaks(out)
    ensures NulOnlyInBreaks(MarkFrom(lines, i, out))
    decreases |lines| - i, 0
  {
    NulSnoc(out, |out|, lines[i]);
    assert out[..|out|] == out;
    MarkFromNul(lines, i + 1, out + [lines[i]]);
    MarkFromCopy(lines, i, out);
  }

  /** A break replacing the last blank line keeps NUL in break lines only. */
  lemma BreakNul(out: seq<string>)
    requires NulOnlyInBreaks(out)
    ensures NulOnlyInBreaks(DropBlank(out) + [Sentinel])
  {
    NulSnoc(out, |DropBlank(out)|, Sentinel);
    assert out[..|DropBlank(out)|] == DropBlank(out);
  }

  /** The second pass writes only lines of its input and break lines. */
  lemma {:induction false} CollapseNul(lines: seq<string>)
    requires NulOnlyInBreaks(lines)
    ensures NulOnlyInBreaks(Collapse(lines).out)
  {
    if lines != [] {
      var init, line := lines[..|lines| - 1], lines[|lines| - 1];
      NulSnoc(lines, |lines| - 1, Sentinel);
      CollapseNul(init);
      var r := Collapse(init);
      var o := r.out;
      if line == Sentinel || !IsBlank(line) || r.blanks + 1 < 3 {
        NulSnoc(o, |o|, line);
        assert o[..|o|] == o;
      } else if r.blanks + 1 == 3 {
        var n := if |o| >= 2 then |o| - 2 else 0;
        assert Pop(Pop(o)) == o[..n];
        NulSnoc(o, n, Sentinel);
      }
    }
  }

  /**
   * In a body without NUL, the lines the third pass joins hold NUL only as break lines, so
   * `ChunksGroups` applies: the slides' pieces are the runs between the breaks.
   */
  lemma FinalLinesNul(body: string)
    requires '\0' !in body
    ensures NulOnlyInBreaks(Collapse(MarkFrom(SplitChar(ReplaceCrlf(body), '\n'), 0, [])).out)
  {
    CrlfWithout(body, '\0');
    SplitCharWithout(ReplaceCrlf(body), '\n', '\0');
    MarkFromNul(SplitChar(ReplaceCrlf(body), '\n'), 0, []);
    CollapseNul(MarkFrom(SplitChar(ReplaceCrlf(body), '\n'), 0, []));
  }

  // ---------------------------------------------------------------------------------------
  // Pass 4: heading inference
  // ---------------------------------------------------------------------------------------

  /** A character allowed in a directive name. */
  predicate IsNameChar(c: char) {
    IsAlphanumeric(c) || c == '-' || c == '_'
  }

  /** `is_directive`: `@`, a possibly empty name of letters, digits, `-` and `_`, then `:`. */
  predicate IsDirective(t: string) {
    StartsWith(t, "@") && FindChar(t, ':').Some? &&
    forall k :: 1 <= k < FindChar(t, ':').value ==> IsNameChar(t[k])
  }

  /** The name before the colon may be empty. */
  lemma DirectiveEmptyName()
    ensures IsDirective("@:x")
  {
    var e: string := "@:x";
    assert e[..1] == "@";
    FindCharIs(e, ':', 1);
  }

  /** A space before the colon makes the line ordinary text. */
  lemma DirectiveSpacedName()
    ensures !IsDirective("@ a:x")
  {
    var sp: string := "@ a:x";
    FindCharIs(sp, ':', 3);
    assert !IsNameChar(sp[1]);
  }

  /** The code fence state: whether one is open, its character and the length of its opening run. */
  datatype Fence = Fence(open: bool, ch: char, len: nat)

  /** No fence open; the character and length are those `split_by_heading_inference` starts with. */
  const NoFence: Fence := Fence(false, '`', 0)

  /**
   * The fence state after a trimmed line: an open fence closes on a run of its character at
   * least as long as the opening one followed only by whitespace; a closed one opens on a line
   * starting with three backticks or three tildes.
   */
  function FenceStep(f: Fence, t: string): Fence {
    if f.open then
      if Closes(f, t) then f.(open := false) else f
    else if StartsWith(t, "```") || StartsWith(t, "~~~") then
      Fence(true, t[0], RunLength(t, t[0]))
    else f
  }

  /** A trimmed line closes the fence: a long enough run of its character, then only whitespace. */
  predicate Closes(f: Fence, t: string) {
    var n := RunLength(t, f.ch);
    n >= f.len && AllWhitespace(t[n..])
  }

  /** The state of `split_by_heading_inference` between lines. */
  datatype Scan = Scan(current: string, hasContent: bool, fence: Fence, slides: seq<string>)

  /** `slides.push(text.trim())` unless the trimmed text is empty. */
  function PushSlide(slides: seq<string>, text: string): seq<string> {
    if Trim(text) == [] then slides else slides + [Trim(text)]
  }

  /** A trimmed line that counts as slide content: not blank and not a directive. */
  predicate IsContent(t: string) {
    t != [] && !IsDirective(t)
  }

  /** The line starts a new slide: an H1 outside a code fence after some content. */
  predicate Breaks(s: Scan, line: string) {
    !FenceStep(s.fence, Trim(line)).open && StartsWith(line, "# ") && s.hasContent
  }

  /** `current` with the line appended, separated by a newline unless `current` is empty. */
  function AppendLine(current: string, line: string): string {
    (if current != [] then current + "\n" else current) + line
  }

  /** One line of heading inference. */
  function ScanLine(s: Scan, line: string): Scan {
    var t := Trim(line);
    var brk := Breaks(s, line);
    Scan(AppendLine(if brk then [] else s.current, line),
         (!brk && s.hasContent) || IsContent(t),
         FenceStep(s.fence, t),
         if brk then PushSlide(s.slides, s.current) else s.slides)
  }

  /** Heading inference over the given lines. */
  function ScanLines(lines: seq<string>): Scan {
    if lines == [] then Scan([], false, NoFence, [])
    else ScanLine(ScanLines(lines[..|lines| - 1]), lines[|lines| - 1])
  }

  /** The slides `split_by_heading_inference` appends for a piece. */
  function HeadingSlides(chunk: string): seq<string> {
    var s := ScanLines(Lines(chunk));
    PushSlide(s.slides, s.current)
  }

  /** `split_by_heading_inference`: appends the piece's slides to `slides`. */
  method SplitByHeadings(chunk: string, slides: seq<string>) returns (out: seq<string>)
    ensures out == slides + HeadingSlides(chunk)
  {
    out := InferHeadings(Lines(chunk), slides);
  }

  /** The loop of `split_by_heading_inference` over the lines of the piece. */
  method InferHeadings(lines: seq<string>, slides: seq<string>) returns (out: seq<string>)
    ensures out == slides + PushSlide(ScanLines(lines).slides, ScanLines(lines).current)
  {
    out := slides;
    var current: string := [];
    var hasContent := false;
    var inCodeFence := false;
    var fenceChar := '`';
    var fenceLen := 0;
    for k := 0 to |lines|
      invariant current == ScanLines(lines[..k]).current
      invariant hasContent == ScanLines(lines[..k]).hasContent
      invariant Fence(inCodeFence, fenceChar, fenceLen) == ScanLines(lines[..k]).fence
      invariant out == slides + ScanLines(lines[..k]).slides
    {
      ScanLinesSnoc(lines, k);
      out, current, hasContent, inCodeFence, fenceChar, fenceLen :=
        HeadingLine(lines[k], slides, ScanLines(lines[..k]), out, current, hasContent, inCodeFence, fenceChar, fenceLen);
    }
    assert lines[..|lines|] == lines;
    var slideText := Trim(current);
    if slideText != [] {
      out := out + [slideText];
    }
  }

  /** The body of `split_by_heading_inference`'s loop: one line, in step with `ScanLine`. */
  method HeadingLine(line: string, ghost slides: seq<string>, ghost s: Scan, out: seq<string>, current: string,
                     hasContent: bool, inCodeFence: bool, fenceChar: char, fenceLen: nat)
    returns (out': seq<string>, current': string, hasContent': bool, inCodeFence': bool, fenceChar': char, fenceLen': nat)
    requires current == s.current && hasContent == s.hasContent
    requires Fence(inCodeFence, fenceChar, fenceLen) == s.fence && out == slides + s.slides
    ensures current' == ScanLine(s, line).current && hasContent' == ScanLine(s, line).hasContent
    ensures Fence(inCodeFence', fenceChar', fenceLen') == ScanLine(s, line).fence
    ensures out' == slides + ScanLine(s, line).slides
  {
    out', current', hasContent' := out, current, hasContent;
    var trimmed := Trim(line);
    inCodeFence', fenceChar', fenceLen' := TrackFence(inCodeFence, fenceChar, fenceLen, trimmed);
    if !inCodeFence' && StartsWith(line, "# ") && hasContent {
      var slideText := Trim(current);
      if slideText != [] {
        out' := out' + [slideText];
      }
      current' := [];
      hasContent' := false;
    }
    if current' != [] {
      current' := current' + "\n";
    }
    current' := current' + line;
    if trimmed != [] && !IsDirective(trimmed) {
      hasContent' := true;
    }
  }

  /** The scan of one more line is one more `ScanLine`. */
  lemma ScanLinesSnoc(lines: seq<string>, k: nat)
    requires k < |lines|
    ensures ScanLines(lines[..k + 1]) == ScanLine(ScanLines(lines[..k]), lines[k])
  {
    assert lines[..k + 1][..k] == lines[..k];
  }

  /** The code fence tracking of `split_by_heading_inference` for one trimmed line. */
  method TrackFence(open: bool, ch: char, len: nat, trimmed: string) returns (open': bool, ch': char, len': nat)
    ensures Fence(open', ch', len') == FenceStep(Fence(open, ch, len), trimmed)
  {
    open', ch', len' := open, ch, len;
    if open {
      var closingCount := RunLength(trimmed, ch);
      if closingCount >= len && AllWhitespace(trimmed[closingCount..]) {
        open' := false;
      }
    } else if StartsWith(trimmed, "```") || StartsWith(trimmed, "~~~") {
      open' := true;
      ch' := trimmed[0];
      len' := RunLength(trimmed, ch');
    }
  }

  /** A text with a non-blank part is not blank. */
  lemma NonBlankWithin(x: string, y: string, z: string)
    requires Trim(y) != []
    ensures Trim(x + y + z) != []
  {
    BlankIffWhitespace(y);
    BlankIffWhitespace(x + y + z);
    var k :| 0 <= k < |y| && !IsWhitespace(y[k]);
    assert (x + y + z)[|x| + k] == y[k];
  }

  /** Every slide is trimmed and non-empty. */
  predicate SlidesTrimmed(slides: seq<string>) {
    forall k :: 0 <= k < |slides| ==> slides[k] != [] && Trim(slides[k]) == slides[k]
  }

  /** What heading inference keeps true: its slides are trimmed and non-empty, and content is never blank. */
  predicate ScanInvariant(s: Scan) {
    SlidesTrimmed(s.slides) && (s.hasContent ==> Trim(s.current) != [])
  }

  /** A pushed slide is trimmed and non-empty. */
  lemma PushSlideShape(slides: seq<string>, text: string)
    requires SlidesTrimmed(slides)
    ensures SlidesTrimmed(PushSlide(slides, text))
  {
    TrimIdempotent(text);
  }

  /** One line keeps the invariant, and adds a slide exactly when it breaks. */
  lemma ScanLineInvariant(s: Scan, line: string)
    requires ScanInvariant(s)
    ensures ScanInvariant(ScanLine(s, line))
    ensures |ScanLine(s, line).slides| == |s.slides| + (if Breaks(s, line) then 1 else 0)
  {
    var brk := Breaks(s, line);
    var cur := if brk then [] else s.current;
    var next := AppendLine(cur, line);
    if brk {
      PushSlideShape(s.slides, s.current);
    }
    if IsContent(Trim(line)) {
      if cur != [] {
        NonBlankWithin(cur + "\n", line, []);
        assert next == cur + "\n" + line + [];
      } else {
        NonBlankWithin([], line, []);
        assert next == [] + line + [];
      }
    } else if !brk && s.hasContent {
      NonBlankWithin([], cur, "\n" + line);
      assert next == [] + cur + ("\n" + line);
    }
  }

  /** The number of lines at which heading inference breaks. */
  function BreakCount(lines: seq<string>): nat {
    if lines == [] then 0
    else BreakCount(lines[..|lines| - 1]) + (if Breaks(ScanLines(lines[..|lines| - 1]), lines[|lines| - 1]) then 1 else 0)
  }

  /** The number of lines starting with `# `. */
  function H1Count(lines: seq<string>): nat {
    if lines == [] then 0
    else H1Count(lines[..|lines| - 1]) + (if StartsWith(lines[|lines| - 1], "# ") then 1 else 0)
  }

  /** Every break adds exactly one slide, and every slide is trimmed and non-empty. */
  lemma {:induction false} ScanSlides(lines: seq<string>)
    ensures ScanInvariant(ScanLines(lines))
    ensures |ScanLines(lines).slides| == BreakCount(lines)
  {
    if lines != [] {
      ScanSlides(lines[..|lines| - 1]);
      ScanLineInvariant(ScanLines(lines[..|lines| - 1]), lines[|lines| - 1]);
    }
  }

  /** Only lines starting with `# ` break; `##` headings and everything else never do. */
  lemma {:induction false} BreaksOnlyAtH1(lines: seq<string>)
    ensures BreakCount(lines) <= H1Count(lines)
  {
    if lines != [] {
      BreaksOnlyAtH1(lines[..|lines| - 1]);
    }
  }

  /** A piece yields trimmed, non-empty slides: one per break, plus the rest if it is not blank. */
  lemma HeadingSlidesShape(chunk: string)
    ensures SlidesTrimmed(HeadingSlides(chunk))
    ensures |HeadingSlides(chunk)| <= BreakCount(Lines(chunk)) + 1
    ensures |HeadingSlides(chunk)| <= H1Count(Lines(chunk)) + 1
  {
    var s := ScanLines(Lines(chunk));
    ScanSlides(Lines(chunk));
    PushSlideShape(s.slides, s.current);
    BreaksOnlyAtH1(Lines(chunk));
  }

  /** Blank lines and directives are not content: until a content line, nothing breaks. */
  lemma {:induction false} NoContentNoBreak(lines: seq<string>)
    requires forall k :: 0 <= k < |lines| ==> !IsContent(Trim(lines[k]))
    ensures ScanLines(lines).slides == [] && !ScanLines(lines).hasContent
    ensures BreakCount(lines) == 0
  {
    if lines != [] {
      NoContentNoBreak(lines[..|lines| - 1]);
    }
  }

  /**
   * Once a fence opens at line `k`, no later line breaks unless one closes it: a `#` comment
   * inside an unclosed code block never starts a slide.
   */
  lemma {:induction false} OpenFenceNoBreak(lines: seq<string>, k: nat)
    requires k < |lines| && ScanLines(lines[..k + 1]).fence.open
    requires forall j :: k < j < |lines| ==> !Closes(ScanLines(lines[..k + 1]).fence, Trim(lines[j]))
    ensures BreakCount(lines) == BreakCount(lines[..k + 1])
    ensures ScanLines(lines).fence == ScanLines(lines[..k + 1]).fence
    decreases |lines|
  {
    if |lines| > k + 1 {
      var init := lines[..|lines| - 1];
      assert init[..k + 1] == lines[..k + 1];
      OpenFenceNoBreak(init, k);
    } else {
      assert lines[..k + 1] == lines;
    }
  }

  /** An H1 line is itself content, so a break always leaves content behind it. */
  lemma H1IsContent(line: string)
    requires StartsWith(line, "# ")
    ensures IsContent(Trim(line))
  {
    assert line[0] == '#';
    TrimStartNoLeading(line);
    TrimEndShape(line);
    TrimEndEmpty(line);
    assert Trim(line)[0] == '#';
  }

  /** After any content line, heading inference holds content to the end. */
  lemma {:induction false} ContentPersists(lines: seq<string>, k: nat)
    requires k < |lines| && IsContent(Trim(lines[k]))
    ensures ScanLines(lines).hasContent
  {
    var init, line := lines[..|lines| - 1], lines[|lines| - 1];
    if k < |lines| - 1 {
      assert init[k] == lines[k];
      ContentPersists(init, k);
      if Breaks(ScanLines(init), line) {
        H1IsContent(line);
      }
    }
  }

  /** A piece with a content line gives exactly one slide more than it has breaks. */
  lemma ContentGivesSlide(chunk: string, k: nat)
    requires k < |Lines(chunk)| && IsContent(Trim(Lines(chunk)[k]))
    ensures |HeadingSlides(chunk)| == BreakCount(Lines(chunk)) + 1
  {
    ContentPersists(Lines(chunk), k);
    ScanSlides(Lines(chunk));
  }

  // ---------------------------------------------------------------------------------------
  // The whole splitter
  // ---------------------------------------------------------------------------------------

  /** The slides of the non-empty pieces, in order. */
  function SlidesOf(chunks: seq<string>): seq<string> {
    if chunks == [] then []
    else
      var last := chunks[|chunks| - 1];
      SlidesOf(chunks[..|chunks| - 1]) + (if last == [] then [] else HeadingSlides(last))
  }

  /** `split` as a function: the four passes in order. */
  function SplitSlides(body: string): seq<string> {
    var lines := SplitChar(ReplaceCrlf(body), '\n');
    SlidesOf(Chunks(Collapse(MarkFrom(lines, 0, [])).out))
  }

  /** `split`. */
  method Split(body: string) returns (slides: seq<string>)
    ensures slides == SplitSlides(body)
  {
    var normalised := ReplaceCrlf(body);
    var lines := SplitChar(normalised, '\n');
    var outputLines := MarkSeparators(lines);
    var finalLines := CollapseBlankRuns(outputLines);
    var chunks := Chunks(finalLines);
    slides := [];
    for k := 0 to |chunks|
      invariant slides == SlidesOf(chunks[..k])
    {
      assert chunks[..k + 1][..k] == chunks[..k];
      if chunks[k] == [] {
        continue;
      }
      slides := SplitByHeadings(chunks[k], slides);
    }
    assert chunks[..|chunks|] == chunks;
  }

  /** Every slide of the deck is trimmed and non-empty. */
  lemma {:induction false} SlidesOfShape(chunks: seq<string>)
    ensures SlidesTrimmed(SlidesOf(chunks))
  {
    if chunks != [] {
      var init, last := chunks[..|chunks| - 1], chunks[|chunks| - 1];
      SlidesOfShape(init);
      var extra := if last == [] then [] else HeadingSlides(last);
      if last != [] {
        HeadingSlidesShape(last);
      }
      assert SlidesOf(chunks) == SlidesOf(init) + extra;
      SlidesTrimmedAppend(SlidesOf(init), extra);
    }
  }

  lemma SlidesTrimmedAppend(a: seq<string>, b: seq<string>)
    requires SlidesTrimmed(a) && SlidesTrimmed(b)
    ensures SlidesTrimmed(a + b)
  {
    forall k | 0 <= k < |a + b|
      ensures (a + b)[k] != [] && Trim((a + b)[k]) == (a + b)[k]
    {
      if k >= |a| {
        assert (a + b)[k] == b[k - |a|];
      }
    }
  }

  /** Every slide `split` returns is trimmed and non-empty. */
  lemma SplitSlidesShape(body: string)
    ensures SlidesTrimmed(SplitSlides(body))
  {
    var lines := SplitChar(ReplaceCrlf(body), '\n');
    SlidesOfShape(Chunks(Collapse(MarkFrom(lines, 0, [])).out));
  }

  /** A piece with a content line adds at least one slide: a separator never merges two slides. */
  lemma {:induction false} SlidesOfCount(chunks: seq<string>, k: nat, j: nat)
    requires k < |chunks| && j < |Lines(chunks[k])| && IsContent(Trim(Lines(chunks[k])[j]))
    ensures |SlidesOf(chunks)| >= |SlidesOf(chunks[..k])| + 1
  {
    var init := chunks[..|chunks| - 1];
    if k == |chunks| - 1 {
      ContentGivesSlide(chunks[k], j);
      assert chunks[..k] == init;
    } else {
      assert init[k] == chunks[k] && init[..k] == chunks[..k];
      SlidesOfCount(init, k, j);
    }
  }

  // ---------------------------------------------------------------------------------------
  // Whole bodies: the separators of the source's tests
  // ---------------------------------------------------------------------------------------

  /** A line of slide text that no pass treats specially. */
  predicate PlainLine(a: string) {
    Carries(a) && '\n' !in a && '\r' !in a && '\0' !in a
  }

  /** A trimmed, non-empty piece of one line is one slide. */
  lemma OneLineSlide(x: string)
    requires x != [] && Trim(x) == x && '\n' !in x
    ensures HeadingSlides(x) == [x]
  {
    assert Lines(x) == [x] by {
      assert FindChar(x, '\n').None?;
    }
    assert [x][..|[x]| - 1] == [];
    var s := ScanLines([x]);
    assert s == ScanLine(ScanLines([]), x);
    assert s.slides == [] && s.current == x;
  }

  /** Two runs with one break line between them, each trimming to a plain line, give two slides. */
  lemma TwoRunSlides(ga: seq<string>, gb: seq<string>, a: string, b: string)
    requires PlainLine(a) && PlainLine(b)
    requires Sentinel !in ga && Sentinel !in gb && NulOnlyInBreaks(ga + [Sentinel] + gb)
    requires Trim(Join(ga, "\n")) == Trim(a) && Trim(Join(gb, "\n")) == Trim(b)
    ensures SlidesOf(Chunks(ga + [Sentinel] + gb)) == [Trim(a), Trim(b)]
  {
    TwoRunChunks(ga, gb);
    TwoLineSlides(a, b);
  }

  /** Two runs with one break line between them are two pieces. */
  lemma TwoRunChunks(ga: seq<string>, gb: seq<string>)
    requires Sentinel !in ga && Sentinel !in gb && NulOnlyInBreaks(ga + [Sentinel] + gb)
    ensures Chunks(ga + [Sentinel] + gb) == [Trim(Join(ga, "\n")), Trim(Join(gb, "\n"))]
  {
    TwoGroups(ga, gb);
    ChunksGroups(ga + [Sentinel] + gb);
  }

  /** Two pieces that are plain lines, trimmed, are a slide each. */
  lemma TwoLineSlides(a: string, b: string)
    requires PlainLine(a) && PlainLine(b)
    ensures SlidesOf([Trim(a), Trim(b)]) == [Trim(a), Trim(b)]
  {
    var x, y := Trim(a), Trim(b);
    PlainSlide(a);
    PlainSlide(b);
    assert [x, y][..|[x, y]| - 1] == [x] && [x][..|[x]| - 1] == [];
    assert SlidesOf([x]) == [x];
  }

  /** A plain line, trimmed, is non-empty and one slide. */
  lemma PlainSlide(a: string)
    requires PlainLine(a)
    ensures Trim(a) != [] && HeadingSlides(Trim(a)) == [Trim(a)]
  {
    TrimIdempotent(a);
    TrimWithout(a, '\n');
    OneLineSlide(Trim(a));
  }

  /** The second pass leaves text, a break and text as they are. */
  lemma CollapseKeepsBreak(a: string, b: string)
    requires IsText(a) && IsText(b)
    ensures Collapse([a, Sentinel, b]).out == [a, Sentinel, b]
  {
    CollapseSnoc([], a, [a]);
    CollapseSnoc([a], Sentinel, [a, Sentinel]);
    CollapseSnoc([a, Sentinel], b, [a, Sentinel, b]);
  }

  /** A body without carriage returns that is its lines joined is split back into those lines. */
  lemma BodyLines(parts: seq<string>, body: string)
    requires |parts| >= 1 && body == Join(parts, "\n") && '\r' !in body
    requires forall k :: 0 <= k < |parts| ==> '\n' !in parts[k]
    ensures SplitChar(ReplaceCrlf(body), '\n') == parts
  {
    NoCrUnchanged(body);
    SplitCharJoin(parts, '\n');
  }

  lemma JoinFive(l0: string, l1: string, l2: string, l3: string, l4: string)
    ensures Join([l0, l1, l2, l3, l4], "\n") == l0 + "\n" + l1 + "\n" + l2 + "\n" + l3 + "\n" + l4
  {
    JoinCons(l0, [l1, l2, l3, l4], "\n");
    JoinCons(l1, [l2, l3, l4], "\n");
    JoinCons(l2, [l3, l4], "\n");
    JoinCons(l3, [l4], "\n");
    assert [l0] + [l1, l2, l3, l4] == [l0, l1, l2, l3, l4];
    assert [l1] + [l2, l3, l4] == [l1, l2, l3, l4];
    assert [l2] + [l3, l4] == [l2, l3, l4];
    assert [l3] + [l4] == [l3, l4];
  }

  /** `split` of a body whose lines and passes are known. */
  lemma SplitSlidesVia(body: string, lines: seq<string>, finalLines: seq<string>)
    requires SplitChar(ReplaceCrlf(body), '\n') == lines
    requires Collapse(MarkFrom(lines, 0, [])).out == finalLines
    ensures SplitSlides(body) == SlidesOf(Chunks(finalLines))
  {
  }

  /** `Slide one`, blank, `---`, blank, `Slide two`: two slides. */
  lemma DashSplits(a: string, b: string)
    requires PlainLine(a) && PlainLine(b)
    ensures SplitSlides(a + "\n\n---\n\n" + b) == [Trim(a), Trim(b)]
  {
    var lines := [a, "", "---", "", b];
    DashLines(a, b);
    TrimOfTrimmed("---");
    DashBetweenBlanks(a, "", "---", "", b);
    CollapseKeepsBreak(a, b);
    SplitSlidesVia(a + "\n\n---\n\n" + b, lines, [a, Sentinel, b]);
    BreakBetweenSlides(a, b);
  }

  lemma DashLines(a: string, b: string)
    requires PlainLine(a) && PlainLine(b)
    ensures SplitChar(ReplaceCrlf(a + "\n\n---\n\n" + b), '\n') == [a, "", "---", "", b]
  {
    var body := a + "\n\n---\n\n" + b;
    JoinFive(a, "", "---", "", b);
    assert body == a + "\n" + "" + "\n" + "---" + "\n" + "" + "\n" + b;
    BodyLines([a, "", "---", "", b], body);
  }

  /** Text, a break and text give a slide each. */
  lemma BreakBetweenSlides(a: string, b: string)
    requires PlainLine(a) && PlainLine(b)
    ensures SlidesOf(Chunks([a, Sentinel, b])) == [Trim(a), Trim(b)]
  {
    assert [a] + [Sentinel] + [b] == [a, Sentinel, b];
    TwoRunSlides([a], [b], a, b);
  }

  /** `Slide one`, three blank lines, `Slide two`: two slides. */
  lemma BlankRunSplits(a: string, b: string)
    requires PlainLine(a) && PlainLine(b)
    ensures SplitSlides(a + "\n\n\n\n" + b) == [Trim(a), Trim(b)]
  {
    var lines := [a, "", "", "", b];
    BlankRunLines(a, b);
    MarkIdentity(lines, 0, []);
    assert [] + lines[0..] == lines;
    BlankRunBreaks(a, "", "", "", b);
    SplitSlidesVia(a + "\n\n\n\n" + b, lines, [a, Sentinel, b]);
    BreakBetweenSlides(a, b);
  }

  lemma BlankRunLines(a: string, b: string)
    requires PlainLine(a) && PlainLine(b)
    ensures SplitChar(ReplaceCrlf(a + "\n\n\n\n" + b), '\n') == [a, "", "", "", b]
  {
    var body := a + "\n\n\n\n" + b;
    JoinFive(a, "", "", "", b);
    assert body == a + "\n" + "" + "\n" + "" + "\n" + "" + "\n" + b;
    BodyLines([a, "", "", "", b], body);
  }

  /**
   * `Slide one`, three blank lines, `---`, three blank lines, `Slide two`: the `---` takes one
   * blank line from each side, the runs left are too short to break, and the overlapping
   * separators make a single break.
   */
  lemma CombinedSplits(a: string, b: string)
    requires PlainLine(a) && PlainLine(b)
    ensures SplitSlides(a + "\n\n\n\n---\n\n\n\n" + b) == [Trim(a), Trim(b)]
  {
    var lines := [a, "", "", "", "---", "", "", "", b];
    var marked := [a, "", "", Sentinel, "", "", b];
    CombinedLines(a, b);
    CombinedMarks(a, b);
    CombinedCollapse(a, b);
    SplitSlidesVia(a + "\n\n\n\n---\n\n\n\n" + b, lines, marked);
    CombinedChunks(a, b);
  }

  lemma CombinedLines(a: string, b: string)
    requires PlainLine(a) && PlainLine(b)
    ensures SplitChar(ReplaceCrlf(a + "\n\n\n\n---\n\n\n\n" + b), '\n') == [a, "", "", "", "---", "", "", "", b]
  {
    CombinedJoin(a, b);
    BodyLines([a, "", "", "", "---", "", "", "", b], a + "\n\n\n\n---\n\n\n\n" + b);
  }

  lemma CombinedJoin(a: string, b: string)
    ensures Join([a, "", "", "", "---", "", "", "", b], "\n") == a + "\n\n\n\n---\n\n\n\n" + b
  {
    var front, back := [a, "", "", ""], ["---", "", "", "", b];
    JoinAppend(front, back, "\n");
    JoinThreeBlanks(a);
    JoinFive("---", "", "", "", b);
    assert Join(back, "\n") == "---\n\n\n\n" + b;
    assert front + back == [a, "", "", "", "---", "", "", "", b];
  }

  lemma JoinThreeBlanks(a: string)
    ensures Join([a, "", "", ""], "\n") == a + "\n\n\n"
  {
    JoinCons(a, ["", "", ""], "\n");
    JoinCons("", ["", ""], "\n");
    JoinCons("", [""], "\n");
    assert [a] + ["", "", ""] == [a, "", "", ""] && [""] + ["", ""] == ["", "", ""] && [""] + [""] == ["", ""];
  }

  /** The first pass: a blank line on each side of the `---` goes with it. */
  lemma CombinedMarks(a: string, b: string)
    requires PlainLine(a) && PlainLine(b)
    ensures MarkFrom([a, "", "", "", "---", "", "", "", b], 0, []) == [a, "", "", Sentinel, "", "", b]
  {
    CombinedBefore(a, b);
    CombinedBreak(a, b);
    CombinedAfter(a, b);
  }

  /** The lines before the `---` are copied. */
  lemma CombinedBefore(a: string, b: string)
    requires PlainLine(a)
    ensures MarkFrom([a, "", "", "", "---", "", "", "", b], 0, [])
      == MarkFrom([a, "", "", "", "---", "", "", "", b], 4, [a, "", "", ""])
  {
    var lines := [a, "", "", "", "---", "", "", "", b];
    assert !IsDashSeparator(Trim(""));
    CopyStep(lines, 0, [], [a]);
    CopyStep(lines, 1, [a], [a, ""]);
    CopyStep(lines, 2, [a, ""], [a, "", ""]);
    CopyStep(lines, 3, [a, "", ""], [a, "", "", ""]);
  }

  /** The lines after the `---` and the blank line it takes are copied. */
  lemma CombinedAfter(a: string, b: string)
    requires PlainLine(b)
    ensures MarkFrom([a, "", "", "", "---", "", "", "", b], 6, [a, "", "", Sentinel])
      == [a, "", "", Sentinel, "", "", b]
  {
    var lines := [a, "", "", "", "---", "", "", "", b];
    assert !IsDashSeparator(Trim(""));
    CopyStep(lines, 6, [a, "", "", Sentinel], [a, "", "", Sentinel, ""]);
    CopyStep(lines, 7, [a, "", "", Sentinel, ""], [a, "", "", Sentinel, "", ""]);
    CopyStep(lines, 8, [a, "", "", Sentinel, "", ""], [a, "", "", Sentinel, "", "", b]);
  }

  /** A line that does not break is copied: `MarkFromCopy` with the new output named. */
  lemma CopyStep(lines: seq<string>, i: nat, out: seq<string>, out': seq<string>)
    requires i < |lines| && !IsDashSeparator(Trim(lines[i])) && out' == out + [lines[i]]
    ensures MarkFrom(lines, i, out) == MarkFrom(lines, i + 1, out')
  {
    MarkFromCopy(lines, i, out);
  }

  /** The `---` with blank lines on both sides replaces the blank line before it and the one after. */
  lemma CombinedBreak(a: string, b: string)
    ensures MarkFrom([a, "", "", "", "---", "", "", "", b], 4, [a, "", "", ""])
      == MarkFrom([a, "", "", "", "---", "", "", "", b], 6, [a, "", "", Sentinel])
  {
    var lines := [a, "", "", "", "---", "", "", "", b];
    var out := [a, "", "", ""];
    TrimOfTrimmed("---");
    assert IsBlank(out[|out| - 1]) && IsBlank(lines[5]);
    assert BreaksAt(lines, 4, out) && Skip(lines, 4) == 2;
    assert DropBlank(out) + [Sentinel] == [a, "", "", Sentinel];
    MarkFromBreak(lines, 4, out);
  }

  /** The second pass: two blank lines on each side of a break are kept. */
  lemma CombinedCollapse(a: string, b: string)
    requires PlainLine(a) && PlainLine(b)
    ensures Collapse([a, "", "", Sentinel, "", "", b]).out == [a, "", "", Sentinel, "", "", b]
  {
    TwoBlanksKept(a, "", "");
    CollapseSnoc([a, "", ""], Sentinel, [a, "", "", Sentinel]);
    CollapseSnoc([a, "", "", Sentinel], "", [a, "", "", Sentinel, ""]);
    CollapseSnoc([a, "", "", Sentinel, ""], "", [a, "", "", Sentinel, "", ""]);
    CollapseSnoc([a, "", "", Sentinel, "", ""], b, [a, "", "", Sentinel, "", "", b]);
  }

  /** The third and fourth passes: the two runs trim to the two lines. */
  lemma CombinedChunks(a: string, b: string)
    requires PlainLine(a) && PlainLine(b)
    ensures SlidesOf(Chunks([a, "", "", Sentinel, "", "", b])) == [Trim(a), Trim(b)]
  {
    var ga, gb := [a, "", ""], ["", "", b];
    assert ga + [Sentinel] + gb == [a, "", "", Sentinel, "", "", b];
    JoinCons(a, ["", ""], "\n");
    JoinCons("", [""], "\n");
    assert [a] + ["", ""] == ga && [""] + [""] == ["", ""];
    assert Join(ga, "\n") == [] + a + "\n\n";
    JoinCons("", ["", b], "\n");
    JoinCons("", [b], "\n");
    assert [""] + ["", b] == gb && [""] + [b] == ["", b];
    assert Join(gb, "\n") == "\n\n" + b + [];
    assert AllWhitespace("\n\n") && AllWhitespace([]);
    TrimAround([], a, "\n\n");
    TrimAround("\n\n", b, []);
    TwoRunSlides(ga, gb, a, b);
  }
}
