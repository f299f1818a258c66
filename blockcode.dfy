/**
 * Fenced code blocks: the opening line's info string (`parse_code_info`), the highlight
 * specification inside braces (`parse_highlight_spec`) and the scan for the closing fence
 * (`parse_code_block`).
 */
module BlockCode {
  import opened Wrappers
  import opened Strings
  import opened Ast

  // ---------------------------------------------------------------------------------------
  // Highlight specifications: "3,5-7"
  // ---------------------------------------------------------------------------------------

  /** The numbers from `lo` up to but not including `hi`. */
  function Upto(lo: nat, hi: nat): (r: seq<nat>)
    ensures |r| == if lo <= hi then hi - lo else 0
    decreases hi
  {
    if hi <= lo then [] else Upto(lo, hi - 1) + [hi - 1]
  }

  lemma {:induction false} UptoAt(lo: nat, hi: nat, k: nat)
    requires k < |Upto(lo, hi)|
    ensures Upto(lo, hi)[k] == lo + k
    decreases hi
  {
    if k < |Upto(lo, hi)| - 1 {
      UptoAt(lo, hi - 1, k);
    }
  }

  /** The line numbers `s..=e`, empty when `s > e`. */
  function Range(s: nat, e: nat): (r: seq<nat>) {
    Upto(s, e + 1)
  }

  /** A range holds exactly the numbers between its bounds, each once and in increasing order. */
  lemma RangeMembers(s: nat, e: nat, x: nat)
    ensures x in Range(s, e) <==> s <= x <= e
    ensures |Range(s, e)| == if s <= e then e - s + 1 else 0
    ensures forall i, j :: 0 <= i < j < |Range(s, e)| ==> Range(s, e)[i] < Range(s, e)[j]
  {
    var r := Range(s, e);
    forall k | 0 <= k < |r| ensures r[k] == s + k {
      UptoAt(s, e + 1, k);
    }
    if s <= x <= e {
      assert r[x - s] == x;
    }
  }

  /** What one trimmed comma-separated part contributes. */
  function PartLines(part: string): seq<nat> {
    match SplitOnce(part, '-')
    case Some((a, b)) => RangeOf(ParseUsize(Trim(a)), ParseUsize(Trim(b)))
    case None => if ParseUsize(part).Some? then [ParseUsize(part).value] else []
  }

  /** A range whose bounds both parsed; nothing otherwise. */
  function RangeOf(s: Option<nat>, e: Option<nat>): seq<nat> {
    if s.Some? && e.Some? then Range(s.value, e.value) else []
  }

  /** What each part contributes, part by part. */
  function Contributions(parts: seq<string>): (r: seq<seq<nat>>)
    ensures |r| == |parts|
  {
    seq(|parts|, k requires 0 <= k < |parts| => PartLines(Trim(parts[k])))
  }

  /** The lists one after another. */
  function Concat(xs: seq<seq<nat>>): seq<nat> {
    if xs == [] then [] else Concat(xs[..|xs| - 1]) + xs[|xs| - 1]
  }

  lemma {:induction false} ConcatAppend(xs: seq<seq<nat>>, ys: seq<seq<nat>>)
    ensures Concat(xs + ys) == Concat(xs) + Concat(ys)
    decreases |ys|
  {
    if ys == [] {
      assert xs + ys == xs;
    } else {
      var zs := xs + ys;
      assert zs[..|zs| - 1] == xs + ys[..|ys| - 1];
      ConcatAppend(xs, ys[..|ys| - 1]);
    }
  }

  /** `parse_highlight_spec` as a function of its argument. */
  function HighlightLines(spec: string): seq<nat> {
    Concat(Contributions(SplitChar(spec, ',')))
  }

  /** The `for line in s..=e { lines.push(line) }` loop of `parse_highlight_spec`. */
  method PushRange(lines: seq<nat>, s: nat, e: nat) returns (r: seq<nat>)
    ensures r == lines + Range(s, e)
  {
    r := lines;
    var line := s;
    while line <= e
      invariant s <= line && (s <= e ==> line <= e + 1) && (s > e ==> line == s)
      invariant r == lines + Upto(s, line)
    {
      assert lines + Upto(s, line + 1) == (lines + Upto(s, line)) + [line];
      r := r + [line];
      line := line + 1;
    }
  }

  /** The body of the loop of `parse_highlight_spec`: what one trimmed part pushes. */
  method PushPart(lines: seq<nat>, part: string) returns (r: seq<nat>)
    ensures r == lines + PartLines(part)
  {
    r := lines;
    match SplitOnce(part, '-') {
      case Some((a, b)) =>
        var s, e := ParseUsize(Trim(a)), ParseUsize(Trim(b));
        if s.Some? && e.Some? {
          r := PushRange(r, s.value, e.value);
        }
      case None =>
        var n := ParseUsize(part);
        if n.Some? {
          r := r + [n.value];
        }
    }
  }

  /** `parse_highlight_spec`: a loop over the comma parts. */
  method ParseHighlightSpec(spec: string) returns (lines: seq<nat>)
    ensures lines == HighlightLines(spec)
  {
    var parts := SplitChar(spec, ',');
    lines := [];
    var k := 0;
    while k < |parts|
      invariant k <= |parts|
      invariant lines == Concat(Contributions(parts)[..k])
    {
      assert Contributions(parts)[..k + 1][..k] == Contributions(parts)[..k];
      lines := PushPart(lines, Trim(parts[k]));
      k := k + 1;
    }
    assert Contributions(parts)[..k] == Contributions(parts);
  }

  /** Splitting at a separator and splitting the two sides separately give the same pieces. */
  lemma {:induction false} SplitCharAppend(a: string, b: string, c: char)
    ensures SplitChar(a + [c] + b, c) == SplitChar(a, c) + SplitChar(b, c)
    decreases |a|
  {
    var s := a + [c] + b;
    match FindChar(a, c)
    case None =>
      FindCharIs(s, c, |a|);
      assert s[..|a|] == a && s[|a| + 1..] == b;
    case Some(k) =>
      assert s[..k] == a[..k];
      FindCharIs(s, c, k);
      assert s[k + 1..] == a[k + 1..] + [c] + b;
      SplitCharAppend(a[k + 1..], b, c);
  }

  lemma ContributionsAppend(p: seq<string>, q: seq<string>)
    ensures Contributions(p + q) == Contributions(p) + Contributions(q)
  {
    var l, r := Contributions(p + q), Contributions(p) + Contributions(q);
    forall k | 0 <= k < |l| ensures l[k] == r[k] {
      if k < |p| {
        assert (p + q)[k] == p[k];
      } else {
        assert (p + q)[k] == q[k - |p|];
      }
    }
  }

  /** The comma parts contribute independently: the spec of `a,b` is that of `a` then that of `b`. */
  lemma HighlightAppend(a: string, b: string)
    ensures HighlightLines(a + "," + b) == HighlightLines(a) + HighlightLines(b)
  {
    SplitCharAppend(a, b, ',');
    var p, q := SplitChar(a, ','), SplitChar(b, ',');
    ContributionsAppend(p, q);
    ConcatAppend(Contributions(p), Contributions(q));
  }

  /** A part that is a plain number contributes exactly that number. */
  lemma PartLinesNumber(n: nat)
    requires n < UsizeBound
    ensures PartLines(ShowNat(n)) == [n]
    ensures HighlightLines(ShowNat(n)) == [n]
  {
    ParseShowNat(n);
    AllDigitsIff(ShowNat(n));
    assert '-' !in ShowNat(n) by {
      forall k | 0 <= k < |ShowNat(n)| ensures ShowNat(n)[k] != '-' {
        assert IsAsciiDigit(ShowNat(n)[k]);
      }
    }
    assert ',' !in ShowNat(n) by {
      forall k | 0 <= k < |ShowNat(n)| ensures ShowNat(n)[k] != ',' {
        assert IsAsciiDigit(ShowNat(n)[k]);
      }
    }
    TrimOfTrimmed(ShowNat(n));
    assert SplitChar(ShowNat(n), ',') == [ShowNat(n)];
    assert Contributions([ShowNat(n)]) == [[n]];
    assert Concat([[n]]) == Concat([]) + [n];
  }

  // ---------------------------------------------------------------------------------------
  // The info string after the opening fence
  // ---------------------------------------------------------------------------------------

  /** `split_whitespace().next().unwrap_or("")`. */
  function FirstWord(s: string): string {
    var ws := SplitWhitespace(s);
    if ws == [] then [] else ws[0]
  }

  /** The highlight list inside `{…}` of the text from the opening brace on, or nothing. */
  function BraceSpec(rest: string): seq<nat>
    requires rest != [] && rest[0] == '{'
  {
    match FindChar(rest, '}')
    case Some(e) => HighlightLines(rest[1..e])
    case None => []
  }

  /**
   * `parse_code_info`: the language, the highlighted lines and whether the block is a
   * diagram. A language is never empty, and a diagram has neither.
   */
  function CodeInfo(info: string): (r: (Option<string>, seq<nat>, bool))
    ensures r.0.Some? ==> r.0.value != []
    ensures r.2 ==> r.0.None? && r.1 == []
    ensures r.1 != [] ==> '{' in info
  {
    if info == [] then (None, [], false)
    else if StartsWith(info, "@diagram") then (None, [], true)
    else
      var parts: (string, seq<nat>) :=
        match FindChar(info, '{')
        case Some(b) => (Trim(info[..b]), BraceSpec(info[b..]))
        case None => (FirstWord(info), []);
      (if parts.0 == [] then None else Some(parts.0), parts.1, false)
  }

  /** A language never starts or ends with whitespace. */
  lemma CodeInfoLanguageTrimmed(info: string)
    requires CodeInfo(info).0.Some?
    ensures var l := CodeInfo(info).0.value; !IsWhitespace(l[0]) && !IsWhitespace(l[|l| - 1])
  {
    match FindChar(info, '{')
    case Some(b) =>
      TrimEdges(info[..b]);
    case None =>
      var ws := SplitWhitespace(info);
      assert ws != [] && ws[0] != [];
  }

  lemma CodeInfoExample()
    ensures CodeInfo("@diagram") == (None, [], true)
    ensures CodeInfo("") == (None, [], false)
  {
  }

  // ---------------------------------------------------------------------------------------
  // The block itself
  // ---------------------------------------------------------------------------------------

  /** A trimmed line closes a fence of `n` characters `c`: at least `n` of them, then only whitespace. */
  predicate ClosesFence(t: string, c: char, n: nat) {
    var run := RunLength(t, c);
    run >= n && AllWhitespace(t[run..])
  }

  /** Since the line is trimmed, it closes the fence exactly when it is `n` or more `c` and nothing else. */
  lemma ClosesFenceIff(line: string, c: char, n: nat)
    requires !IsWhitespace(c)
    ensures ClosesFence(Trim(line), c, n) <==> n <= |Trim(line)| && forall k :: 0 <= k < |Trim(line)| ==> Trim(line)[k] == c
  {
    var t := Trim(line);
    var run := RunLength(t, c);
    TrimEdges(line);
  }

  /** The index of the first line at or after `i` that closes the fence, or the line count. */
  function CloseFence(lines: seq<string>, i: nat, c: char, n: nat): (r: nat)
    requires i <= |lines|
    ensures i <= r <= |lines|
    decreases |lines| - i
  {
    if i == |lines| then i
    else if ClosesFence(Trim(lines[i]), c, n) then i
    else CloseFence(lines, i + 1, c, n)
  }

  /** The fence closes on the first closing line: none before it closes, and it does unless the text ended. */
  lemma {:induction false} CloseFenceFirst(lines: seq<string>, i: nat, c: char, n: nat)
    requires i <= |lines|
    ensures var r := CloseFence(lines, i, c, n);
      (r < |lines| ==> ClosesFence(Trim(lines[r]), c, n)) &&
      forall k :: i <= k < r ==> !ClosesFence(Trim(lines[k]), c, n)
    decreases |lines| - i
  {
    if i < |lines| && !ClosesFence(Trim(lines[i]), c, n) {
      CloseFenceFirst(lines, i + 1, c, n);
    }
  }

  /**
   * `parse_code_block` as a function: the block and the index after it. The code is the lines
   * strictly between the fences, joined by "\n"; an unclosed fence runs to the end.
   */
  function CodeBlockAt(lines: seq<string>, start: nat, c: char): (r: (Block, nat))
    requires start < |lines|
    ensures start < r.1 <= |lines|
  {
    var opening := Trim(lines[start]);
    var n := RunLength(opening, c);
    var info := CodeInfo(Trim(opening[n..]));
    var close := CloseFence(lines, start + 1, c, n);
    var code := Join(lines[start + 1..close], "\n");
    (if info.2 then Diagram(code) else CodeBlock(info.0, code, info.1),
     if close < |lines| then close + 1 else close)
  }

  /** `parse_code_block`: collects lines until the closing fence. */
  method ParseCodeBlock(lines: seq<string>, start: nat, fence: char) returns (block: Block, end: nat)
    requires start < |lines|
    ensures block == CodeBlockAt(lines, start, fence).0
    ensures end == CodeBlockAt(lines, start, fence).1
  {
    var opening := Trim(lines[start]);
    var fenceLen := RunLength(opening, fence);
    var info := CodeInfo(Trim(opening[fenceLen..]));
    var codeLines, i := CollectCode(lines, start + 1, fence, fenceLen);
    var code := Join(codeLines, "\n");
    if info.2 {
      block := Diagram(code);
    } else {
      block := CodeBlock(info.0, code, info.1);
    }
    end := i;
  }

  /** The loop of `parse_code_block`: the lines before the closing fence, and the index after that fence. */
  method CollectCode(lines: seq<string>, from: nat, fence: char, fenceLen: nat) returns (codeLines: seq<string>, end: nat)
    requires from <= |lines|
    ensures var close := CloseFence(lines, from, fence, fenceLen);
      codeLines == lines[from..close] && end == if close < |lines| then close + 1 else close
  {
    codeLines := [];
    var i := from;
    ghost var close := CloseFence(lines, from, fence, fenceLen);
    assert lines[from..from] == [];
    while i < |lines|
      invariant from <= i <= |lines|
      invariant CloseFence(lines, i, fence, fenceLen) == close
      invariant codeLines == lines[from..i]
    {
      var trimmed := Trim(lines[i]);
      var closing := RunLength(trimmed, fence);
      CloseFenceNext(lines, i, fence, fenceLen);
      if closing >= fenceLen && AllWhitespace(trimmed[closing..]) {
        assert close == i;
        return codeLines, i + 1;
      }
      SliceExtend(lines, from, i);
      codeLines := codeLines + [lines[i]];
      i := i + 1;
    }
    end := i;
  }

  lemma CloseFenceNext(lines: seq<string>, i: nat, c: char, n: nat)
    requires i < |lines|
    ensures CloseFence(lines, i, c, n) == if ClosesFence(Trim(lines[i]), c, n) then i else CloseFence(lines, i + 1, c, n)
  {
  }
}
