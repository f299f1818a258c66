/**
 * The inline parser: a left-to-right character scan that recognises inline code, bold,
 * strikethrough, italic and links, and keeps every other character as literal text.
 *
 * `Parsed` is the specification of the scan (one recursive step per character or per
 * recognised span); the `Parse*` methods are the loops of the implementation, each proved
 * equal to its specification function.
 */
module InlineParser {
  import opened Wrappers
  import opened Strings
  import opened Ast
  import Seqs

  /** `peek`: the character at `k`, if there is one. */
  function Peek(t: string, k: nat): (r: Option<char>)
    ensures r.Some? <==> k < |t|
    ensures r.Some? ==> r.value == t[k]
  {
    if k < |t| then Some(t[k]) else None
  }

  /** `flush_text`: pending literal text becomes a `Text` element only when it is non-empty. */
  function Flush(cur: string, acc: seq<Inline>): (r: seq<Inline>)
    ensures cur == [] ==> r == acc
    ensures cur != [] ==> r == acc + [Text(cur)]
  {
    if cur == [] then acc else acc + [Text(cur)]
  }

  /** Number of backticks in `s`. */
  function Ticks(s: string): nat {
    multiset(s)['`']
  }

  /** The backtick-depth toggle of `parse_delimited` after reading `t[cs..k]`. */
  function Toggle(t: string, cs: nat, k: nat): bool
    requires cs <= k <= |t|
    decreases k - cs
  {
    if k == cs then false else Toggle(t, cs, k - 1) != (t[k - 1] == '`')
  }

  /** The toggle is set exactly when an odd number of backticks has been read. */
  lemma {:induction false} ToggleCountsTicks(t: string, cs: nat, k: nat)
    requires cs <= k <= |t|
    ensures Toggle(t, cs, k) <==> Ticks(t[cs..k]) % 2 == 1
    decreases k - cs
  {
    if k > cs {
      ToggleCountsTicks(t, cs, k - 1);
      assert t[cs..k] == t[cs..k - 1] + [t[k - 1]];
    }
  }

  /**
   * A closing delimiter of a span whose content starts at `cs` may sit at `k`: the content
   * `t[cs..k]` is non-empty, the toggle is clear, and `close` occurs at `k`.
   */
  predicate Closes(t: string, close: string, cs: nat, k: nat)
    requires cs <= k <= |t|
  {
    k < |t| && k > cs && OccursAt(t, close, k) && !Toggle(t, cs, k)
  }

  /** No position in `a..e` `Closes` the span whose content starts at `cs`. */
  predicate NoClose(t: string, close: string, cs: nat, a: nat, e: nat)
    requires cs <= a <= e <= |t|
  {
    forall j :: a <= j < e ==> !Closes(t, close, cs, j)
  }

  /** The loop of `parse_delimited` from position `k` on; `odd` is the backtick-depth toggle. */
  function CloseScan(t: string, close: string, cs: nat, k: nat, odd: bool): (r: Option<nat>)
    requires cs <= k <= |t|
    requires odd == Toggle(t, cs, k)
    ensures r.Some? ==> k <= r.value < |t| && Closes(t, close, cs, r.value)
    decreases |t| - k
  {
    if k == |t| then None
    else if !odd && k > cs && OccursAt(t, close, k) then Some(k)
    else CloseScan(t, close, cs, k + 1, if t[k] == '`' then !odd else odd)
  }

  /** The scan stops at the first position that `Closes`, and finds none only when there is none. */
  lemma {:induction false} CloseScanFirst(t: string, close: string, cs: nat, k: nat, odd: bool)
    requires cs <= k <= |t|
    requires odd == Toggle(t, cs, k)
    ensures CloseScan(t, close, cs, k, odd).Some? ==> NoClose(t, close, cs, k, CloseScan(t, close, cs, k, odd).value)
    ensures CloseScan(t, close, cs, k, odd).None? ==> NoClose(t, close, cs, k, |t|)
    decreases |t| - k
  {
    if k < |t| && !(!odd && k > cs && OccursAt(t, close, k)) {
      CloseScanFirst(t, close, cs, k + 1, if t[k] == '`' then !odd else odd);
    }
  }

  /**
   * `parse_delimited`: the span opened by `open` at `start` and closed by the first `close`
   * that `Closes`; its content and the index just past the closing delimiter.
   */
  function DelimitedAt(t: string, start: nat, open: string, close: string): (r: Option<(string, nat)>)
    requires start <= |t|
    ensures r.Some? ==> start + |open| + |r.value.0| + |close| == r.value.1 <= |t|
  {
    if !OccursAt(t, open, start) then None
    else
      var cs := start + |open|;
      match CloseScan(t, close, cs, cs, false)
      case None => None
      case Some(k) => Some((t[cs..k], k + |close|))
  }

  /** The text from `start` to just past a closing position `k` is the opener, the content and the closer. */
  lemma SpanSlices(t: string, start: nat, open: string, close: string, k: nat)
    requires OccursAt(t, open, start) && start + |open| <= k && OccursAt(t, close, k)
    ensures t[start..k + |close|] == open + t[start + |open|..k] + close
  {
    var cs := start + |open|;
    assert t[start..k + |close|] == t[start..cs] + t[cs..k] + t[k..k + |close|];
  }

  /** A delimited span is `open`, then non-empty content with an even number of backticks, then `close`. */
  lemma DelimitedAtShape(t: string, start: nat, open: string, close: string)
    requires start <= |t|
    ensures DelimitedAt(t, start, open, close).Some? ==>
      var span := DelimitedAt(t, start, open, close).value;
      t[start..span.1] == open + span.0 + close && span.0 != [] && Ticks(span.0) % 2 == 0
  {
    if OccursAt(t, open, start) {
      var cs := start + |open|;
      match CloseScan(t, close, cs, cs, false)
      case None =>
      case Some(k) =>
        assert DelimitedAt(t, start, open, close) == Some((t[cs..k], k + |close|));
        SpanSlices(t, start, open, close, k);
        ToggleCountsTicks(t, cs, k);
    }
  }

  /**
   * A delimited span is found exactly when the opening delimiter is there and some later
   * position `Closes` it, and then it ends at the first such position.
   */
  lemma DelimitedAtFirstClose(t: string, start: nat, open: string, close: string)
    requires start <= |t|
    ensures DelimitedAt(t, start, open, close).None? <==>
      !OccursAt(t, open, start) || NoClose(t, close, start + |open|, start + |open|, |t|)
    ensures DelimitedAt(t, start, open, close).Some? ==>
      var cs := start + |open|;
      NoClose(t, close, cs, cs, cs + |DelimitedAt(t, start, open, close).value.0|)
  {
    if OccursAt(t, open, start) {
      var cs := start + |open|;
      assert t[cs..cs] == [];
      CloseScanFirst(t, close, cs, cs, false);
    }
  }

  /** `parse_inline_code`: everything up to the next backtick, and the index just past it. */
  function InlineCodeAt(t: string, start: nat): (r: Option<(string, nat)>)
    requires start < |t|
    ensures r.Some? ==> r.value.1 == start + |r.value.0| + 2 <= |t|
  {
    match FindChar(t[start + 1..], '`')
    case None => None
    case Some(k) => Some((t[start + 1..][..k], start + k + 2))
  }

  /** Inline code is everything between the backtick at `start` and the next one, and needs that next one. */
  lemma InlineCodeAtShape(t: string, start: nat)
    requires start < |t|
    ensures InlineCodeAt(t, start).Some? ==>
      var code := InlineCodeAt(t, start).value;
      '`' !in code.0 && t[start + 1..code.1] == code.0 + "`"
    ensures InlineCodeAt(t, start).None? <==> '`' !in t[start + 1..]
  {
    match FindChar(t[start + 1..], '`')
    case None =>
    case Some(k) =>
      assert t[start + 1..start + k + 2] == t[start + 1..][..k] + [t[start + 1..][k]];
  }

  /** Opening brackets minus closing brackets in `s`. */
  function Net(s: string, open: char, close: char): int {
    multiset(s)[open] as int - multiset(s)[close] as int
  }

  /** Every prefix of `s` has at least as many `open` as `close`, and `s` has as many of each. */
  predicate Balanced(s: string, open: char, close: char) {
    Net(s, open, close) == 0 && forall j :: 0 <= j <= |s| ==> Net(s[..j], open, close) >= 0
  }

  /** Every prefix of `t[k0..k]` keeps the depth positive. */
  predicate DepthPositive(t: string, open: char, close: char, k0: nat, k: nat)
    requires k0 <= k <= |t|
  {
    forall j :: k0 <= j <= k ==> Net(t[k0..j], open, close) >= 0
  }

  /** `close` at `j` brings the depth, 1 at `k0`, back to 0. */
  predicate ClosesAt(t: string, open: char, close: char, k0: nat, j: nat)
    requires k0 <= j < |t|
  {
    t[j] == close && Net(t[k0..j], open, close) == 0
  }

  /**
   * The depth-counting loops of `parse_link` from `k` on: the first `close` at which the
   * depth, 1 at `k0`, drops back to 0.
   */
  function BalanceScan(t: string, open: char, close: char, k0: nat, k: nat): (r: Option<nat>)
    requires open != close
    requires k0 <= k <= |t|
    requires DepthPositive(t, open, close, k0, k)
    ensures r.Some? ==> k <= r.value < |t| && ClosesAt(t, open, close, k0, r.value)
    ensures r.Some? ==> DepthPositive(t, open, close, k0, r.value)
    ensures r.Some? ==> forall j :: k <= j < r.value ==> !ClosesAt(t, open, close, k0, j)
    ensures r.None? ==> forall j :: k <= j < |t| ==> !ClosesAt(t, open, close, k0, j)
    decreases |t| - k
  {
    if k == |t| then None
    else if ClosesAt(t, open, close, k0, k) then Some(k)
    else
      assert t[k0..k + 1] == t[k0..k] + [t[k]];
      BalanceScan(t, open, close, k0, k + 1)
  }

  /** The pieces of a link found by `parse_link`: raw text, verbatim URL, index just past `)`. */
  datatype LinkParts = LinkParts(text: string, url: string, end: nat)

  lemma BalancedSlice(t: string, open: char, close: char, k0: nat, e: nat)
    requires k0 <= e < |t|
    requires ClosesAt(t, open, close, k0, e)
    requires DepthPositive(t, open, close, k0, e)
    ensures Balanced(t[k0..e], open, close)
  {
    var s := t[k0..e];
    forall j | 0 <= j <= |s| ensures Net(s[..j], open, close) >= 0 {
      assert s[..j] == t[k0..k0 + j];
    }
  }

  lemma LinkShape(t: string, start: nat, j: nat, u: nat)
    requires start < j && j + 2 <= u < |t|
    requires t[start] == '[' && t[j] == ']' && t[j + 1] == '(' && t[u] == ')'
    ensures t[start..u + 1] == "[" + t[start + 1..j] + "](" + t[j + 2..u] + ")"
  {
    assert t[start..u + 1] == [t[start]] + t[start + 1..j] + [t[j], t[j + 1]] + t[j + 2..u] + [t[u]];
  }

  /** `parse_link`: `[text](url)`, the text and the URL each ending where the depth returns to 0. */
  function LinkAt(t: string, start: nat): (r: Option<LinkParts>)
    requires start < |t|
    ensures t[start] != '[' ==> r.None?
    ensures r.Some? ==> start + |r.value.text| + |r.value.url| + 4 == r.value.end <= |t|
  {
    if t[start] != '[' then None
    else
      assert t[start + 1..start + 1] == [];
      match BalanceScan(t, '[', ']', start + 1, start + 1)
      case None => None
      case Some(j) =>
        if j + 1 >= |t| || t[j + 1] != '(' then None
        else
          assert t[j + 2..j + 2] == [];
          match BalanceScan(t, '(', ')', j + 2, j + 2)
          case None => None
          case Some(u) => Some(LinkParts(t[start + 1..j], t[j + 2..u], u + 1))
  }

  /** A link spans `[text](url)` in the input, with balanced brackets in the text and parentheses in the URL. */
  lemma LinkAtShape(t: string, start: nat)
    requires start < |t|
    ensures LinkAt(t, start).Some? ==>
      var l := LinkAt(t, start).value;
      t[start..l.end] == "[" + l.text + "](" + l.url + ")" && Balanced(l.text, '[', ']') && Balanced(l.url, '(', ')')
  {
    if LinkAt(t, start).Some? {
      var l := LinkAt(t, start).value;
      assert t[start + 1..start + 1] == [];
      var j := BalanceScan(t, '[', ']', start + 1, start + 1).value;
      assert t[j + 2..j + 2] == [];
      var u := BalanceScan(t, '(', ')', j + 2, j + 2).value;
      LinkAtFound(t, start, j, u, t[start + 1..j], t[j + 2..u]);
      LinkPartsShape(t, start, j, u, l);
    }
  }

  /** The parts of a link found at `j` and `u`: the shape and balance facts of `LinkAtShape`. */
  lemma LinkPartsShape(t: string, start: nat, j: nat, u: nat, l: LinkParts)
    requires start < j && j + 2 <= u < |t|
    requires t[start] == '[' && t[j + 1] == '('
    requires ClosesAt(t, '[', ']', start + 1, j) && DepthPositive(t, '[', ']', start + 1, j)
    requires ClosesAt(t, '(', ')', j + 2, u) && DepthPositive(t, '(', ')', j + 2, u)
    requires l == LinkParts(t[start + 1..j], t[j + 2..u], u + 1)
    ensures t[start..l.end] == "[" + l.text + "](" + l.url + ")"
    ensures Balanced(l.text, '[', ']') && Balanced(l.url, '(', ')')
  {
    BalancedSlice(t, '[', ']', start + 1, j);
    BalancedSlice(t, '(', ')', j + 2, u);
    LinkShape(t, start, j, u);
  }

  /** The characters at which the scan flushes pending text and tries a span. */
  predicate OpensSpan(t: string, i: nat)
    requires i < |t|
  {
    t[i] == '`' || t[i] == '*' || (t[i] == '~' && Peek(t, i + 1) == Some('~')) || t[i] == '['
  }

  /** The inline parse of `t` (`inline::parse`). */
  function Parsed(t: string): seq<Inline>
    decreases |t|, 2, 0
  {
    Scan(t, 0, [], [])
  }

  /**
   * The span starting at `i`, if one closes, with the index just past it. The branches are
   * tried in the order of the implementation; the content of bold, strikethrough, italic and
   * link text is parsed again.
   */
  function Attempt(t: string, i: nat): (r: Option<(Inline, nat)>)
    requires i < |t|
    ensures r.Some? ==> i < r.value.1 <= |t| && OpensSpan(t, i)
    decreases |t|, 0, 0
  {
    var c := t[i];
    var next := Peek(t, i + 1);
    if c == '`' && InlineCodeAt(t, i).Some? then
      var code := InlineCodeAt(t, i).value;
      Some((Code(code.0), code.1))
    else if c == '*' && next == Some('*') && DelimitedAt(t, i, "**", "**").Some? then
      var span := DelimitedAt(t, i, "**", "**").value;
      Some((Bold(Parsed(span.0)), span.1))
    else if c == '~' && next == Some('~') && DelimitedAt(t, i, "~~", "~~").Some? then
      var span := DelimitedAt(t, i, "~~", "~~").value;
      Some((Strikethrough(Parsed(span.0)), span.1))
    else if c == '*' && next != Some('*') && DelimitedAt(t, i, "*", "*").Some? then
      var span := DelimitedAt(t, i, "*", "*").value;
      Some((Italic(Parsed(span.0)), span.1))
    else if c == '[' && LinkAt(t, i).Some? then
      var link := LinkAt(t, i).value;
      Some((Link(Parsed(link.text), link.url), link.end))
    else
      None
  }

  /**
   * The scan from position `i`, with pending literal text `cur` and elements `acc` so far.
   * At a span opener the pending text is flushed; a span that does not close leaves its
   * opening character as literal text.
   */
  function Scan(t: string, i: nat, cur: string, acc: seq<Inline>): seq<Inline>
    requires i <= |t|
    decreases |t|, 1, |t| - i
  {
    if i == |t| then Flush(cur, acc)
    else match Attempt(t, i)
      case Some(span) => Scan(t, span.1, [], Flush(cur, acc) + [span.0])
      case None =>
        if OpensSpan(t, i) then Scan(t, i + 1, [t[i]], Flush(cur, acc))
        else Scan(t, i + 1, cur + [t[i]], acc)
  }

  // ---------------------------------------------------------------------------------------
  // The implementation's loops
  // ---------------------------------------------------------------------------------------

  /** `parse`: the character loop with its pending-text buffer. */
  method Parse(t: string) returns (result: seq<Inline>)
    ensures result == Parsed(t)
    decreases |t|, 3
  {
    var i := 0;
    var current: string := [];
    result := [];
    ghost var parsed := Parsed(t);
    while i < |t|
      invariant 0 <= i <= |t|
      invariant Scan(t, i, current, result) == parsed
      decreases |t| - i
    {
      i, current, result := ParseStep(t, i, current, result);
    }
    result := Flush(current, result);
  }

  /**
   * The body of `parse`'s loop at `i`: at a span opener, flush the pending text and try the span;
   * a span that parses is taken whole, anything else is one character of plain text.
   */
  method ParseStep(t: string, i: nat, current: string, result: seq<Inline>)
    returns (i': nat, current': string, result': seq<Inline>)
    requires i < |t|
    ensures i < i' <= |t|
    ensures Scan(t, i', current', result') == Scan(t, i, current, result)
    decreases |t|, 2
  {
    var c := t[i];
    current', result' := current, result;
    if OpensSpan(t, i) {
      result' := Flush(current, result);
      current' := [];
    }
    var span := TrySpan(t, i);
    if span.Some? {
      assert OpensSpan(t, i);
      ScanSpan(t, i, current, result, span.value.0, span.value.1);
      return span.value.1, current', result' + [span.value.0];
    }
    ScanLiteral(t, i, current, result);
    assert OpensSpan(t, i) ==> current' + [c] == [t[i]];
    current' := current' + [c];
    i' := i + 1;
  }

  /** The span tried at an opener of `parse`'s loop: inline code, bold, strikethrough, italic or a link. */
  method TrySpan(t: string, i: nat) returns (span: Option<(Inline, nat)>)
    requires i < |t|
    ensures span == Attempt(t, i)
    decreases |t|, 1
  {
    var c := t[i];
    if c == '`' {
      AttemptCode(t, i);
      var code := ParseInlineCode(t, i);
      if code.Some? {
        return Some((Code(code.value.0), code.value.1));
      }
    } else if c == '*' && Peek(t, i + 1) == Some('*') {
      AttemptBold(t, i);
      var d := ParseDelimited(t, i, "**", "**");
      if d.Some? {
        var inner := Parse(d.value.0);
        return Some((Bold(inner), d.value.1));
      }
    } else if c == '~' && Peek(t, i + 1) == Some('~') {
      AttemptStrike(t, i);
      var d := ParseDelimited(t, i, "~~", "~~");
      if d.Some? {
        var inner := Parse(d.value.0);
        return Some((Strikethrough(inner), d.value.1));
      }
    } else if c == '*' {
      AttemptItalic(t, i);
      var d := ParseDelimited(t, i, "*", "*");
      if d.Some? {
        var inner := Parse(d.value.0);
        return Some((Italic(inner), d.value.1));
      }
    } else if c == '[' {
      AttemptLink(t, i);
      span := ParseLink(t, i);
      return;
    } else {
      AttemptOther(t, i);
    }
    return None;
  }

  // What `Attempt` gives for each kind of opening character.

  lemma AttemptCode(t: string, i: nat)
    requires i < |t| && t[i] == '`'
    ensures var code := InlineCodeAt(t, i);
      Attempt(t, i) == if code.Some? then Some((Code(code.value.0), code.value.1)) else None
  {
  }

  lemma AttemptBold(t: string, i: nat)
    requires i < |t| && t[i] == '*' && Peek(t, i + 1) == Some('*')
    ensures var span := DelimitedAt(t, i, "**", "**");
      Attempt(t, i) == if span.Some? then Some((Bold(Parsed(span.value.0)), span.value.1)) else None
  {
  }

  lemma AttemptStrike(t: string, i: nat)
    requires i < |t| && t[i] == '~' && Peek(t, i + 1) == Some('~')
    ensures var span := DelimitedAt(t, i, "~~", "~~");
      Attempt(t, i) == if span.Some? then Some((Strikethrough(Parsed(span.value.0)), span.value.1)) else None
  {
  }

  lemma AttemptItalic(t: string, i: nat)
    requires i < |t| && t[i] == '*' && Peek(t, i + 1) != Some('*')
    ensures var span := DelimitedAt(t, i, "*", "*");
      Attempt(t, i) == if span.Some? then Some((Italic(Parsed(span.value.0)), span.value.1)) else None
  {
  }

  lemma AttemptLink(t: string, i: nat)
    requires i < |t| && t[i] == '['
    ensures var link := LinkAt(t, i);
      Attempt(t, i) == if link.Some? then Some((Link(Parsed(link.value.text), link.value.url), link.value.end)) else None
  {
  }

  lemma AttemptOther(t: string, i: nat)
    requires i < |t| && t[i] != '`' && t[i] != '*' && t[i] != '['
    requires !(t[i] == '~' && Peek(t, i + 1) == Some('~'))
    ensures Attempt(t, i).None?
  {
  }

  lemma ScanSpan(t: string, i: nat, cur: string, acc: seq<Inline>, x: Inline, e: nat)
    requires i < |t| && Attempt(t, i) == Some((x, e))
    ensures Scan(t, i, cur, acc) == Scan(t, e, [], Flush(cur, acc) + [x])
  {
  }

  lemma ScanLiteral(t: string, i: nat, cur: string, acc: seq<Inline>)
    requires i < |t| && Attempt(t, i).None?
    ensures OpensSpan(t, i) ==> Scan(t, i, cur, acc) == Scan(t, i + 1, [t[i]], Flush(cur, acc))
    ensures !OpensSpan(t, i) ==> Scan(t, i, cur, acc) == Scan(t, i + 1, cur + [t[i]], acc)
  {
  }

  /** `parse_inline_code`. */
  method ParseInlineCode(chars: string, start: nat) returns (r: Option<(string, nat)>)
    requires start < |chars|
    ensures r == InlineCodeAt(chars, start)
  {
    var i := start + 1;
    var code: string := [];
    while i < |chars|
      invariant start + 1 <= i <= |chars|
      invariant code == chars[start + 1..i]
      invariant '`' !in code
      decreases |chars| - i
    {
      if chars[i] == '`' {
        FindCharIs(chars[start + 1..], '`', i - start - 1);
        assert chars[start + 1..][..i - start - 1] == code;
        return Some((code, i + 1));
      }
      code := code + [chars[i]];
      i := i + 1;
    }
    return None;
  }

  /** The per-character delimiter comparison of `parse_delimited` (`peek` at each offset). */
  method DelimiterAt(chars: string, pos: nat, delim: string) returns (matches: bool)
    requires pos <= |chars|
    ensures matches <==> OccursAt(chars, delim, pos)
  {
    var k := 0;
    while k < |delim|
      invariant 0 <= k <= |delim|
      invariant pos + k <= |chars| && chars[pos..pos + k] == delim[..k]
    {
      if Peek(chars, pos + k) != Some(delim[k]) {
        return false;
      }
      assert chars[pos..pos + k + 1] == chars[pos..pos + k] + [chars[pos + k]];
      assert delim[..k + 1] == delim[..k] + [delim[k]];
      k := k + 1;
    }
    return true;
  }

  lemma DelimitedFromScan(t: string, start: nat, open: string, close: string)
    requires start <= |t| && OccursAt(t, open, start)
    ensures var k := CloseScan(t, close, start + |open|, start + |open|, false);
      DelimitedAt(t, start, open, close) == if k.None? then None else Some((t[start + |open|..k.value], k.value + |close|))
  {
    assert t[start + |open|..start + |open|] == [];
  }

  /** `parse_delimited`: checks the opening delimiter, then scans for an acceptable closing one. */
  method ParseDelimited(chars: string, start: nat, open: string, close: string) returns (r: Option<(string, nat)>)
    requires start <= |chars|
    ensures r == DelimitedAt(chars, start, open, close)
  {
    var openOk := DelimiterAt(chars, start, open);
    if !openOk {
      return None;
    }
    var cs := start + |open|;
    var i := cs;
    var depth := 0;
    var content: string := [];
    assert chars[cs..cs] == [];
    ghost var target := CloseScan(chars, close, cs, cs, false);
    while i < |chars|
      invariant cs <= i <= |chars|
      invariant content == chars[cs..i]
      invariant (depth == 0 || depth == 1) && (depth == 1 <==> Toggle(chars, cs, i))
      invariant CloseScan(chars, close, cs, i, depth == 1) == target
      decreases |chars| - i
    {
      var found;
      i, depth, content, found := DelimitedChar(chars, close, cs, i, depth, content, target);
      if found {
        DelimitedFromScan(chars, start, open, close);
        return Some((content, i + |close|));
      }
    }
    DelimitedFromScan(chars, start, open, close);
    return None;
  }

  /**
   * The body of `parse_delimited`'s scan at `i`: outside inline code, a closer after some content
   * ends the span; otherwise the character is read and a backtick flips the inline-code depth.
   */
  method DelimitedChar(chars: string, close: string, cs: nat, i: nat, depth: int, content: string,
                       ghost target: Option<nat>)
    returns (i': nat, depth': int, content': string, found: bool)
    requires cs <= i < |chars|
    requires content == chars[cs..i]
    requires (depth == 0 || depth == 1) && (depth == 1 <==> Toggle(chars, cs, i))
    requires CloseScan(chars, close, cs, i, depth == 1) == target
    ensures found ==> i' == i && content' == content && target == Some(i')
    ensures !found ==> i' == i + 1 && content' == chars[cs..i']
    ensures !found ==> (depth' == 0 || depth' == 1) && (depth' == 1 <==> Toggle(chars, cs, i'))
    ensures !found ==> CloseScan(chars, close, cs, i', depth' == 1) == target
  {
    if depth == 0 {
      var matches := DelimiterAt(chars, i, close);
      if matches && content != [] {
        return i, depth, content, true;
      }
    }
    depth' := depth;
    if chars[i] == '`' {
      depth' := if depth == 0 then 1 else 0;
    }
    CloseScanNext(chars, close, cs, i, depth == 1);
    return i + 1, depth', content + [chars[i]], false;
  }

  /** Past a position that does not close the span, the scan goes on one character later. */
  lemma CloseScanNext(t: string, close: string, cs: nat, i: nat, odd: bool)
    requires cs <= i < |t| && odd == Toggle(t, cs, i)
    requires odd || i == cs || !OccursAt(t, close, i)
    ensures Toggle(t, cs, i + 1) == (if t[i] == '`' then !odd else odd)
    ensures CloseScan(t, close, cs, i + 1, Toggle(t, cs, i + 1)) == CloseScan(t, close, cs, i, odd)
    ensures t[cs..i + 1] == t[cs..i] + [t[i]]
  {
    assert t[cs..i + 1] == t[cs..i] + [t[i]];
  }

  /**
   * One depth-counting loop of `parse_link`, from `k0` with depth 1; stops at the index of the
   * `close` that brings the depth to 0, or at the end of the input.
   */
  method ScanBalanced(chars: string, k0: nat, open: char, close: char) returns (i: nat, inner: string)
    requires open != close
    requires k0 <= |chars|
    ensures k0 <= i <= |chars| && inner == chars[k0..i]
    ensures (i < |chars| && chars[i] == close) <==> BalanceScan(chars, open, close, k0, k0).Some?
    ensures i < |chars| && chars[i] == close ==> BalanceScan(chars, open, close, k0, k0) == Some(i)
  {
    i := k0;
    inner := [];
    var depth := 1;
    assert chars[k0..k0] == [];
    ghost var balanced := BalanceScan(chars, open, close, k0, k0);
    while i < |chars| && depth > 0
      invariant k0 <= i <= |chars|
      invariant inner == chars[k0..i]
      invariant depth == 1 + Net(inner, open, close)
      invariant DepthPositive(chars, open, close, k0, i)
      invariant BalanceScan(chars, open, close, k0, i) == balanced
      decreases |chars| - i
    {
      var closed;
      i, depth, inner, closed := BalanceChar(chars, open, close, k0, i, depth, inner, balanced);
      if closed {
        return;
      }
    }
  }

  /** The body of the depth-counting loop at `i`: count the character, stop on the matching `close`. */
  method BalanceChar(chars: string, open: char, close: char, k0: nat, i: nat, depth: int, inner: string,
                     ghost balanced: Option<nat>)
    returns (i': nat, depth': int, inner': string, closed: bool)
    requires open != close && k0 <= i < |chars|
    requires inner == chars[k0..i] && depth == 1 + Net(inner, open, close)
    requires DepthPositive(chars, open, close, k0, i) && BalanceScan(chars, open, close, k0, i) == balanced
    ensures closed ==> i' == i && inner' == inner && chars[i'] == close && balanced == Some(i')
    ensures !closed ==> i' == i + 1 && inner' == chars[k0..i'] && depth' == 1 + Net(inner', open, close)
    ensures !closed ==> DepthPositive(chars, open, close, k0, i') && BalanceScan(chars, open, close, k0, i') == balanced
  {
    depth' := depth;
    if chars[i] == open {
      depth' := depth + 1;
    } else if chars[i] == close {
      depth' := depth - 1;
      if depth' == 0 {
        ScanClosesHere(chars, open, close, k0, i);
        return i, depth', inner, true;
      }
    }
    BalanceStep(chars, open, close, k0, i);
    return i + 1, depth', inner + [chars[i]], false;
  }

  /** A `close` that brings the depth back to 0 is where the scan stops. */
  lemma ScanClosesHere(t: string, open: char, close: char, k0: nat, i: nat)
    requires open != close && k0 <= i < |t|
    requires DepthPositive(t, open, close, k0, i)
    requires t[i] == close && Net(t[k0..i], open, close) == 0
    ensures BalanceScan(t, open, close, k0, i) == Some(i)
  {
    assert ClosesAt(t, open, close, k0, i);
  }

  /** One character of the depth-counting loop that does not close the span. */
  lemma BalanceStep(t: string, open: char, close: char, k0: nat, i: nat)
    requires open != close && k0 <= i < |t|
    requires DepthPositive(t, open, close, k0, i) && !ClosesAt(t, open, close, k0, i)
    ensures t[k0..i + 1] == t[k0..i] + [t[i]]
    ensures Net(t[k0..i + 1], open, close) ==
      Net(t[k0..i], open, close) + (if t[i] == open then 1 else if t[i] == close then -1 else 0)
    ensures DepthPositive(t, open, close, k0, i + 1)
    ensures BalanceScan(t, open, close, k0, i + 1) == BalanceScan(t, open, close, k0, i)
  {
    assert t[k0..i + 1] == t[k0..i] + [t[i]];
  }

  /** `parse_link`: the bracket loop, the `(` check, the parenthesis loop, then the text's parse. */
  method ParseLink(chars: string, start: nat) returns (r: Option<(Inline, nat)>)
    requires start < |chars|
    ensures r.None? <==> LinkAt(chars, start).None?
    ensures r.Some? ==> r.value == (Link(Parsed(LinkAt(chars, start).value.text), LinkAt(chars, start).value.url), LinkAt(chars, start).value.end)
    decreases |chars|, 0
  {
    if chars[start] != '[' {
      return None;
    }
    var i, text := ScanBalanced(chars, start + 1, '[', ']');
    if i >= |chars| || chars[i] != ']' {
      LinkAtUnclosed(chars, start);
      return None;
    }
    var j := i;
    i := i + 1;
    if i >= |chars| || chars[i] != '(' {
      LinkAtNoUrl(chars, start, j);
      return None;
    }
    var e, url := ScanBalanced(chars, i + 1, '(', ')');
    if e >= |chars| || chars[e] != ')' {
      LinkAtNoUrl(chars, start, j);
      return None;
    }
    LinkAtFound(chars, start, j, e, text, url);
    var inner := Parse(text);
    return Some((Link(inner, url), e + 1));
  }

  /** Without a `]` that closes the text there is no link. */
  lemma LinkAtUnclosed(t: string, start: nat)
    requires start < |t| && t[start] == '[' && BalanceScan(t, '[', ']', start + 1, start + 1).None?
    ensures LinkAt(t, start).None?
  {
  }

  /** Once the text closes at `j`, there is no link without a `(` next and a `)` that closes the URL. */
  lemma LinkAtNoUrl(t: string, start: nat, j: nat)
    requires start < |t| && t[start] == '[' && BalanceScan(t, '[', ']', start + 1, start + 1) == Some(j)
    requires j + 1 >= |t| || t[j + 1] != '(' || BalanceScan(t, '(', ')', j + 2, j + 2).None?
    ensures LinkAt(t, start).None?
  {
  }

  /** The text closes at `j` and the URL at `u`: the link is everything in between. */
  lemma LinkAtFound(t: string, start: nat, j: nat, u: nat, text: string, url: string)
    requires start < |t| && t[start] == '[' && BalanceScan(t, '[', ']', start + 1, start + 1) == Some(j)
    requires j + 1 < |t| && t[j + 1] == '(' && BalanceScan(t, '(', ')', j + 2, j + 2) == Some(u)
    requires start + 1 <= j && text == t[start + 1..j] && j + 2 <= u && url == t[j + 2..u]
    ensures LinkAt(t, start) == Some(LinkParts(text, url, u + 1))
  {
  }

  // ---------------------------------------------------------------------------------------
  // Properties of the parse
  // ---------------------------------------------------------------------------------------

  /** The markdown source an inline tree stands for. */
  function Render(x: Inline): string
    decreases x
  {
    match x
    case Text(s) => s
    case Code(s) => "`" + s + "`"
    case Bold(ch) => "**" + RenderAll(ch) + "**"
    case Italic(ch) => "*" + RenderAll(ch) + "*"
    case Strikethrough(ch) => "~~" + RenderAll(ch) + "~~"
    case Link(text, url) => "[" + RenderAll(text) + "](" + url + ")"
  }

  function RenderAll(xs: seq<Inline>): string
    decreases xs
  {
    if xs == [] then [] else RenderAll(xs[..|xs| - 1]) + Render(xs[|xs| - 1])
  }

  lemma RenderAllAppend(xs: seq<Inline>, x: Inline)
    ensures RenderAll(xs + [x]) == RenderAll(xs) + Render(x)
  {
    assert (xs + [x])[..|xs|] == xs;
  }

  lemma RenderFlush(cur: string, acc: seq<Inline>)
    ensures RenderAll(Flush(cur, acc)) == RenderAll(acc) + cur
  {
    if cur != [] {
      RenderAllAppend(acc, Text(cur));
    }
  }

  /** The parse loses nothing: rendering the tree back gives the input text. */
  lemma {:induction false} ParsedRoundTrip(t: string)
    ensures RenderAll(Parsed(t)) == t
    decreases |t|, 2, 0, 0
  {
    ScanRoundTrip(t, 0, [], []);
    assert [] + t[0..] == t;
  }

  lemma {:induction false} ScanRoundTrip(t: string, i: nat, cur: string, acc: seq<Inline>)
    requires i <= |t|
    ensures RenderAll(Scan(t, i, cur, acc)) == RenderAll(acc) + cur + t[i..]
    decreases |t|, 1, |t| - i, 1
  {
    if i == |t| {
      RenderFlush(cur, acc);
      assert t[i..] == [];
    } else if Attempt(t, i).Some? {
      var span := Attempt(t, i).value;
      AttemptRoundTrip(t, i);
      ScanSpan(t, i, cur, acc, span.0, span.1);
      RoundTripAfterSpan(t, i, cur, acc, span.0, span.1);
    } else {
      ScanLiteral(t, i, cur, acc);
      RoundTripAfterLiteral(t, i, cur, acc);
    }
  }

  /** The round trip of the scan that goes on after a literal character. */
  lemma {:induction false} RoundTripAfterLiteral(t: string, i: nat, cur: string, acc: seq<Inline>)
    requires i < |t|
    ensures OpensSpan(t, i) ==> RenderAll(Scan(t, i + 1, [t[i]], Flush(cur, acc))) == RenderAll(acc) + cur + t[i..]
    ensures !OpensSpan(t, i) ==> RenderAll(Scan(t, i + 1, cur + [t[i]], acc)) == RenderAll(acc) + cur + t[i..]
    decreases |t|, 1, |t| - i, 0
  {
    var c := t[i];
    assert t[i..] == [c] + t[i + 1..];
    if OpensSpan(t, i) {
      ScanRoundTrip(t, i + 1, [c], Flush(cur, acc));
      RenderFlush(cur, acc);
    } else {
      ScanRoundTrip(t, i + 1, cur + [c], acc);
    }
  }

  /** The round trip of the scan that goes on after a span covering `t[i..e]`. */
  lemma {:induction false} RoundTripAfterSpan(t: string, i: nat, cur: string, acc: seq<Inline>, x: Inline, e: nat)
    requires i < e <= |t| && Render(x) == t[i..e]
    ensures RenderAll(Scan(t, e, [], Flush(cur, acc) + [x])) == RenderAll(acc) + cur + t[i..]
    decreases |t|, 1, |t| - i, 0
  {
    var acc' := Flush(cur, acc) + [x];
    ScanRoundTrip(t, e, [], acc');
    SpanConcat(Scan(t, e, [], acc'), cur, acc, x, t[i..e], t[e..]);
    Seqs.SuffixAt(t, i, e);
  }

  /** Rendering a scan that continues after a span: the flushed text, the span, the rest. */
  lemma SpanConcat(s: seq<Inline>, cur: string, acc: seq<Inline>, x: Inline, mid: string, rest: string)
    requires Render(x) == mid
    requires RenderAll(s) == RenderAll(Flush(cur, acc) + [x]) + [] + rest
    ensures RenderAll(s) == RenderAll(acc) + cur + (mid + rest)
  {
    RenderAllAppend(Flush(cur, acc), x);
    RenderFlush(cur, acc);
  }

  lemma {:induction false} AttemptRoundTrip(t: string, i: nat)
    requires i < |t|
    ensures Attempt(t, i).Some? ==> Render(Attempt(t, i).value.0) == t[i..Attempt(t, i).value.1]
    decreases |t|, 0, 0
  {
    var c := t[i];
    var next := Peek(t, i + 1);
    if c == '`' && InlineCodeAt(t, i).Some? {
      var code := InlineCodeAt(t, i).value;
      InlineCodeAtShape(t, i);
      assert t[i..code.1] == [t[i]] + t[i + 1..code.1];
    } else if c == '*' && next == Some('*') && DelimitedAt(t, i, "**", "**").Some? {
      DelimitedAtShape(t, i, "**", "**");
      ParsedRoundTrip(DelimitedAt(t, i, "**", "**").value.0);
    } else if c == '~' && next == Some('~') && DelimitedAt(t, i, "~~", "~~").Some? {
      DelimitedAtShape(t, i, "~~", "~~");
      ParsedRoundTrip(DelimitedAt(t, i, "~~", "~~").value.0);
    } else if c == '*' && next != Some('*') && DelimitedAt(t, i, "*", "*").Some? {
      DelimitedAtShape(t, i, "*", "*");
      ParsedRoundTrip(DelimitedAt(t, i, "*", "*").value.0);
    } else if c == '[' && LinkAt(t, i).Some? {
      LinkAtShape(t, i);
      ParsedRoundTrip(LinkAt(t, i).value.text);
    }
  }

  /** No `Text` element is empty and no `Code` element holds a backtick, at any depth. */
  predicate InlineTidy(x: Inline)
    decreases x
  {
    match x
    case Text(s) => s != []
    case Code(s) => '`' !in s
    case Bold(ch) => AllTidy(ch)
    case Italic(ch) => AllTidy(ch)
    case Strikethrough(ch) => AllTidy(ch)
    case Link(text, _) => AllTidy(text)
  }

  predicate AllTidy(xs: seq<Inline>)
    decreases xs
  {
    forall k :: 0 <= k < |xs| ==> InlineTidy(xs[k])
  }

  lemma {:induction false} ParsedTidy(t: string)
    ensures AllTidy(Parsed(t))
    decreases |t|, 2, 0
  {
    ScanTidy(t, 0, [], []);
  }

  lemma {:induction false} ScanTidy(t: string, i: nat, cur: string, acc: seq<Inline>)
    requires i <= |t|
    requires AllTidy(acc)
    ensures AllTidy(Scan(t, i, cur, acc))
    decreases |t|, 1, |t| - i
  {
    assert AllTidy(Flush(cur, acc));
    if i < |t| {
      match Attempt(t, i)
      case Some(span) =>
        AttemptTidy(t, i);
        ScanTidy(t, span.1, [], Flush(cur, acc) + [span.0]);
      case None =>
        if OpensSpan(t, i) {
          ScanTidy(t, i + 1, [t[i]], Flush(cur, acc));
        } else {
          ScanTidy(t, i + 1, cur + [t[i]], acc);
        }
    }
  }

  lemma {:induction false} AttemptTidy(t: string, i: nat)
    requires i < |t|
    ensures Attempt(t, i).Some? ==> InlineTidy(Attempt(t, i).value.0)
    decreases |t|, 0, 0
  {
    var c := t[i];
    var next := Peek(t, i + 1);
    if c == '`' && InlineCodeAt(t, i).Some? {
      InlineCodeAtShape(t, i);
    } else if c == '*' && next == Some('*') && DelimitedAt(t, i, "**", "**").Some? {
      ParsedTidy(DelimitedAt(t, i, "**", "**").value.0);
    } else if c == '~' && next == Some('~') && DelimitedAt(t, i, "~~", "~~").Some? {
      ParsedTidy(DelimitedAt(t, i, "~~", "~~").value.0);
    } else if c == '*' && next != Some('*') && DelimitedAt(t, i, "*", "*").Some? {
      ParsedTidy(DelimitedAt(t, i, "*", "*").value.0);
    } else if c == '[' && LinkAt(t, i).Some? {
      ParsedTidy(LinkAt(t, i).value.text);
    }
  }

  /** No position of `t` starts a span. */
  predicate NoSpanOpener(t: string) {
    forall k :: 0 <= k < |t| ==> !OpensSpan(t, k)
  }

  /** Text without backticks, asterisks, double tildes or brackets is one `Text` element. */
  lemma PlainTextIsOneText(t: string)
    requires NoSpanOpener(t)
    ensures Parsed(t) == if t == [] then [] else [Text(t)]
  {
    ScanPlain(t, 0, []);
    assert [] + t[0..] == t;
  }

  lemma {:induction false} ScanPlain(t: string, i: nat, cur: string)
    requires i <= |t|
    requires NoSpanOpener(t)
    ensures Scan(t, i, cur, []) == Flush(cur + t[i..], [])
    decreases |t| - i
  {
    if i < |t| {
      assert !OpensSpan(t, i);
      ScanPlain(t, i + 1, cur + [t[i]]);
      assert cur + [t[i]] + t[i + 1..] == cur + t[i..];
    } else {
      assert cur + t[i..] == cur;
    }
  }

  /** The toggle stays clear and the scan moves on over a stretch with no backtick and no closer. */
  lemma {:induction false} CloseScanSkip(t: string, close: string, cs: nat, k: nat, e: nat)
    requires cs <= k <= e <= |t|
    requires !Toggle(t, cs, k)
    requires forall j :: k <= j < e ==> t[j] != '`' && !OccursAt(t, close, j)
    ensures !Toggle(t, cs, e)
    ensures CloseScan(t, close, cs, k, false) == CloseScan(t, close, cs, e, false)
    decreases e - k
  {
    if k < e {
      assert t[k] != '`' && !OccursAt(t, close, k);
      CloseScanSkip(t, close, cs, k + 1, e);
    }
  }

  /** Plain text between `**` and `**` is one bold element. */
  lemma BoldOfPlain(w: string)
    requires w != [] && NoSpanOpener(w)
    ensures Parsed("**" + w + "**") == [Bold([Text(w)])]
  {
    var t := "**" + w + "**";
    BoldDelimited(w);
    PlainTextIsOneText(w);
    AttemptBold(t, 0);
    ScanSpan(t, 0, [], [], Bold([Text(w)]), |t|);
  }

  /** The bold delimiters of `**w**` close at the end when `w` has no span opener. */
  lemma BoldDelimited(w: string)
    requires w != [] && NoSpanOpener(w)
    ensures var t := "**" + w + "**";
      t[0] == '*' && Peek(t, 1) == Some('*') && DelimitedAt(t, 0, "**", "**") == Some((w, |t|))
  {
    var t := "**" + w + "**";
    var e := 2 + |w|;
    WrappedParts("**", w);
    forall j | 2 <= j < e
      ensures t[j] != '`' && !OccursAt(t, "**", j)
    {
      assert t[j] == w[j - 2] && !OpensSpan(w, j - 2);
    }
    CloseScanSkip(t, "**", 2, 2, e);
  }

  /** Where the pieces of `d + w + d` sit. */
  lemma WrappedParts(d: string, w: string)
    ensures var t := d + w + d; var e := |d| + |w|;
      && |t| == e + |d| && t[..|d|] == d && t[|d|..e] == w && t[e..e + |d|] == d
      && forall j :: |d| <= j < e ==> t[j] == w[j - |d|]
  {
    var t := d + w + d;
    assert t == d + (w + d);
  }

  /** Plain text between single asterisks is one italic element. */
  lemma ItalicOfPlain(w: string)
    requires w != [] && NoSpanOpener(w)
    ensures Parsed("*" + w + "*") == [Italic([Text(w)])]
  {
    var t := "*" + w + "*";
    ItalicDelimited(w);
    PlainTextIsOneText(w);
    AttemptItalic(t, 0);
    ScanSpan(t, 0, [], [], Italic([Text(w)]), |t|);
  }

  /** The italic delimiters of `*w*` close at the end when `w` has no span opener. */
  lemma ItalicDelimited(w: string)
    requires w != [] && NoSpanOpener(w)
    ensures var t := "*" + w + "*";
      t[0] == '*' && Peek(t, 1) != Some('*') && DelimitedAt(t, 0, "*", "*") == Some((w, |t|))
  {
    var t := "*" + w + "*";
    var e := 1 + |w|;
    WrappedParts("*", w);
    forall j | 1 <= j < e
      ensures t[j] != '`' && !OccursAt(t, "*", j)
    {
      assert t[j] == w[j - 1] && !OpensSpan(w, j - 1);
    }
    CloseScanSkip(t, "*", 1, 1, e);
    assert t[1] == w[0] && !OpensSpan(w, 0);
  }

  /** Anything without a backtick between two backticks is one code element, kept verbatim. */
  lemma CodeOfVerbatim(w: string)
    requires '`' !in w
    ensures Parsed("`" + w + "`") == [Code(w)]
  {
    var t := "`" + w + "`";
    assert t[1..] == w + "`";
    FindCharIs(w + "`", '`', |w|);
    assert InlineCodeAt(t, 0) == Some((w, |t|));
    ScanSpan(t, 0, [], [], Code(w), |t|);
  }
}
