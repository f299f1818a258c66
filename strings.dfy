/** The Rust `str` operations the parsers rely on, over `seq<char>`. */
module Strings {
  import opened Wrappers

  /** Rust's `char::is_whitespace`: the characters with the Unicode White_Space property. */
  predicate IsWhitespace(c: char) {
    ('\t' <= c <= '\r') || c == ' ' || c == '\U{85}' || c == '\U{A0}' || c == '\U{1680}'
    || ('\U{2000}' <= c <= '\U{200A}') || c == '\U{2028}' || c == '\U{2029}'
    || c == '\U{202F}' || c == '\U{205F}' || c == '\U{3000}'
  }

  predicate AllWhitespace(s: string) {
    forall k :: 0 <= k < |s| ==> IsWhitespace(s[k])
  }

  predicate IsAsciiDigit(c: char) {
    '0' <= c <= '9'
  }

  /** `char::is_alphanumeric`, restricted to ASCII letters and digits. */
  predicate IsAlphanumeric(c: char) {
    IsAsciiDigit(c) || ('a' <= c <= 'z') || ('A' <= c <= 'Z')
  }

  /** Number of bytes of `c` in UTF-8. */
  function Utf8Len(c: char): (n: nat)
    ensures 1 <= n <= 4
    ensures n == 1 <==> c < '\U{80}'
  {
    if c < '\U{80}' then 1 else if c < '\U{800}' then 2 else if c < '\U{10000}' then 3 else 4
  }

  /** Rust's `str::len`: the UTF-8 byte length. */
  function ByteLen(s: string): (n: nat)
    ensures |s| <= n
    ensures s != [] && !(s[0] < '\U{80}') ==> n >= 2
  {
    if s == [] then 0 else Utf8Len(s[0]) + ByteLen(s[1..])
  }

  lemma ByteLenAppend(a: string, b: string)
    ensures ByteLen(a + b) == ByteLen(a) + ByteLen(b)
  {
    if a == [] {
      assert a + b == b;
    } else {
      assert (a + b)[1..] == a[1..] + b;
      ByteLenAppend(a[1..], b);
    }
  }

  /** Rust's `str::trim_start`; what it removes is stated by `TrimStartShape`. */
  function TrimStart(s: string): (r: string)
    ensures |r| <= |s|
  {
    if s != [] && IsWhitespace(s[0]) then TrimStart(s[1..]) else s
  }

  /** Rust's `str::trim_end`; what it removes is stated by `TrimEndShape`. */
  function TrimEnd(s: string): (r: string)
    ensures |r| <= |s|
  {
    if s != [] && IsWhitespace(s[|s| - 1]) then TrimEnd(s[..|s| - 1]) else s
  }

  /** Rust's `str::trim`. */
  function Trim(s: string): (r: string)
    ensures |r| <= |s|
  {
    TrimEnd(TrimStart(s))
  }

  /** `trim_start` removes a whitespace prefix and stops at the first other character. */
  lemma {:induction false} TrimStartShape(s: string)
    ensures TrimStart(s) == s[|s| - |TrimStart(s)|..]
    ensures AllWhitespace(s[..|s| - |TrimStart(s)|])
    ensures TrimStart(s) == [] || !IsWhitespace(TrimStart(s)[0])
  {
    if s != [] && IsWhitespace(s[0]) {
      TrimStartShape(s[1..]);
      var n := |s| - |TrimStart(s)|;
      assert s[1..][..n - 1] == s[1..n];
      forall k | 0 <= k < n ensures IsWhitespace(s[..n][k]) {
        if k > 0 { assert s[..n][k] == s[1..][..n - 1][k - 1]; }
      }
    }
  }

  /** `trim_end` removes a whitespace suffix and stops at the last other character. */
  lemma {:induction false} TrimEndShape(s: string)
    ensures TrimEnd(s) == s[..|TrimEnd(s)|]
    ensures AllWhitespace(s[|TrimEnd(s)|..])
    ensures TrimEnd(s) == [] || !IsWhitespace(TrimEnd(s)[|TrimEnd(s)| - 1])
  {
    if s != [] && IsWhitespace(s[|s| - 1]) {
      var t := s[..|s| - 1];
      TrimEndShape(t);
      var n := |TrimEnd(s)|;
      assert t[n..] + [s[|s| - 1]] == s[n..];
    }
  }

  /** A trimmed string neither starts nor ends with whitespace. */
  lemma TrimEdges(s: string)
    ensures Trim(s) == [] || (!IsWhitespace(Trim(s)[0]) && !IsWhitespace(Trim(s)[|Trim(s)| - 1]))
  {
    var t := TrimStart(s);
    TrimStartShape(s);
    TrimEndShape(t);
    if Trim(s) != [] {
      assert Trim(s)[0] == t[0];
    }
  }

  lemma TrimStartNoLeading(s: string)
    requires s == [] || !IsWhitespace(s[0])
    ensures TrimStart(s) == s
  {
  }

  /** Leading whitespace makes no difference to `trim_start`. */
  lemma {:induction false} TrimStartSkipsWhitespace(ws: string, s: string)
    requires AllWhitespace(ws)
    ensures TrimStart(ws + s) == TrimStart(s)
  {
    if ws != [] {
      assert (ws + s)[0] == ws[0] && IsWhitespace(ws[0]);
      assert (ws + s)[1..] == ws[1..] + s;
      assert AllWhitespace(ws[1..]) by {
        forall k | 0 <= k < |ws| - 1 ensures IsWhitespace(ws[1..][k]) {
          assert ws[1..][k] == ws[k + 1];
        }
      }
      TrimStartSkipsWhitespace(ws[1..], s);
      assert TrimStart(ws + s) == TrimStart((ws + s)[1..]);
    } else {
      assert ws + s == s;
    }
  }

  /** Trailing whitespace makes no difference to `trim_end`. */
  lemma {:induction false} TrimEndSkipsWhitespace(s: string, ws: string)
    requires AllWhitespace(ws)
    ensures TrimEnd(s + ws) == TrimEnd(s)
    decreases |ws|
  {
    if ws != [] {
      var w := ws[..|ws| - 1];
      assert (s + ws)[..|s + ws| - 1] == s + w;
      assert (s + ws)[|s + ws| - 1] == ws[|ws| - 1];
      assert AllWhitespace(w) by {
        forall k | 0 <= k < |w| ensures IsWhitespace(w[k]) {
          assert w[k] == ws[k];
        }
      }
      TrimEndSkipsWhitespace(s, w);
    } else {
      assert s + ws == s;
    }
  }

  /** `trim_start` of a string that is not all whitespace stops inside it. */
  lemma {:induction false} TrimStartAppend(s: string, t: string)
    requires !AllWhitespace(s)
    ensures TrimStart(s + t) == TrimStart(s) + t
  {
    assert (s + t)[0] == s[0];
    if IsWhitespace(s[0]) {
      var k :| 0 <= k < |s| && !IsWhitespace(s[k]);
      assert s[1..][k - 1] == s[k];
      assert (s + t)[1..] == s[1..] + t;
      TrimStartAppend(s[1..], t);
    }
  }

  /** Whitespace around a string makes no difference to `trim`. */
  lemma TrimAround(ws1: string, s: string, ws2: string)
    requires AllWhitespace(ws1) && AllWhitespace(ws2)
    ensures Trim(ws1 + s + ws2) == Trim(s)
  {
    assert ws1 + s + ws2 == ws1 + (s + ws2);
    TrimStartSkipsWhitespace(ws1, s + ws2);
    if AllWhitespace(s) {
      assert AllWhitespace(s + ws2) by {
        forall k | 0 <= k < |s + ws2| ensures IsWhitespace((s + ws2)[k]) {
          if k >= |s| {
            assert (s + ws2)[k] == ws2[k - |s|];
          }
        }
      }
      TrimStartAllWhitespace(s + ws2);
      TrimStartAllWhitespace(s);
    } else {
      TrimStartAppend(s, ws2);
      TrimEndSkipsWhitespace(TrimStart(s), ws2);
    }
  }

  lemma TrimEndNoTrailing(s: string)
    requires s == [] || !IsWhitespace(s[|s| - 1])
    ensures TrimEnd(s) == s
  {
  }

  lemma TrimIdempotent(s: string)
    ensures Trim(Trim(s)) == Trim(s)
  {
    TrimEdges(s);
    TrimOfTrimmed(Trim(s));
  }

  lemma TrimOfTrimmed(s: string)
    requires s == [] || (!IsWhitespace(s[0]) && !IsWhitespace(s[|s| - 1]))
    ensures Trim(s) == s
  {
    TrimStartNoLeading(s);
    TrimEndNoTrailing(s);
  }

  lemma {:induction false} TrimStartAllWhitespace(s: string)
    ensures TrimStart(s) == [] <==> AllWhitespace(s)
  {
    if s != [] && IsWhitespace(s[0]) {
      TrimStartAllWhitespace(s[1..]);
      if AllWhitespace(s[1..]) {
        assert AllWhitespace(s) by {
          forall k | 0 <= k < |s| ensures IsWhitespace(s[k]) {
            if k > 0 { assert s[k] == s[1..][k - 1]; }
          }
        }
      }
    }
  }

  lemma {:induction false} TrimEndEmpty(s: string)
    ensures TrimEnd(s) == [] <==> AllWhitespace(s)
  {
    if s != [] && IsWhitespace(s[|s| - 1]) {
      TrimEndEmpty(s[..|s| - 1]);
      if AllWhitespace(s[..|s| - 1]) {
        assert AllWhitespace(s) by {
          forall k | 0 <= k < |s| ensures IsWhitespace(s[k]) {
            if k < |s| - 1 { assert s[k] == s[..|s| - 1][k]; }
          }
        }
      }
    }
  }

  /** A line is blank when it trims to nothing. */
  predicate IsBlank(s: string) {
    Trim(s) == []
  }

  lemma BlankIffWhitespace(s: string)
    ensures IsBlank(s) <==> AllWhitespace(s)
  {
    TrimStartAllWhitespace(s);
    TrimStartShape(s);
    TrimEndEmpty(TrimStart(s));
  }

  predicate StartsWith(s: string, p: string) {
    |p| <= |s| && s[..|p|] == p
  }

  predicate EndsWith(s: string, p: string) {
    |p| <= |s| && s[|s| - |p|..] == p
  }

  /** Rust's `str::strip_prefix`. */
  function StripPrefix(s: string, p: string): (r: Option<string>)
    ensures r.Some? <==> StartsWith(s, p)
    ensures r.Some? ==> s == p + r.value
  {
    if StartsWith(s, p) then Some(s[|p|..]) else None
  }

  /** Index of the first `c` in `s`. */
  function FindChar(s: string, c: char): (r: Option<nat>)
    ensures r.Some? ==> r.value < |s| && s[r.value] == c && c !in s[..r.value]
    ensures r.None? ==> c !in s
  {
    if s == [] then None
    else if s[0] == c then Some(0)
    else match FindChar(s[1..], c)
      case None => None
      case Some(k) => Some(k + 1)
  }

  lemma FindCharIs(s: string, c: char, k: nat)
    requires k < |s| && s[k] == c && c !in s[..k]
    ensures FindChar(s, c) == Some(k)
  {
  }

  /** Index of the last `c` in `s` (Rust's `str::rfind` for a char). */
  function RFindChar(s: string, c: char): (r: Option<nat>)
    ensures r.Some? ==> r.value < |s| && s[r.value] == c && c !in s[r.value + 1..]
    ensures r.None? ==> c !in s
  {
    if s == [] then None
    else if s[|s| - 1] == c then Some(|s| - 1)
    else RFindChar(s[..|s| - 1], c)
  }

  predicate OccursAt(s: string, sub: string, k: nat) {
    k + |sub| <= |s| && s[k..k + |sub|] == sub
  }

  /** Index of the first occurrence of `sub` in `s` at or after `from`. */
  function FindFrom(s: string, sub: string, from: nat): (r: Option<nat>)
    requires from <= |s|
    ensures r.Some? ==> from <= r.value && OccursAt(s, sub, r.value)
    decreases |s| - from
  {
    if OccursAt(s, sub, from) then Some(from)
    else if from == |s| then None
    else FindFrom(s, sub, from + 1)
  }

  /** The search from `from` finds the first occurrence at or after `from`, and fails only when there is none. */
  lemma {:induction false} FindFromFirst(s: string, sub: string, from: nat)
    requires from <= |s|
    ensures var r := FindFrom(s, sub, from);
      && (r.Some? ==> forall k :: from <= k < r.value ==> !OccursAt(s, sub, k))
      && (r.None? ==> forall k :: from <= k <= |s| ==> !OccursAt(s, sub, k))
    decreases |s| - from
  {
    if !OccursAt(s, sub, from) && from < |s| {
      FindFromFirst(s, sub, from + 1);
    }
  }

  /** Rust's `str::find` for a string pattern. */
  function Find(s: string, sub: string): (r: Option<nat>)
    ensures r.Some? ==> OccursAt(s, sub, r.value)
  {
    FindFrom(s, sub, 0)
  }

  /** `find` returns the first occurrence, and nothing exactly when there is none. */
  lemma FindFirst(s: string, sub: string)
    ensures var r := Find(s, sub);
      && (r.Some? ==> forall k :: 0 <= k < r.value ==> !OccursAt(s, sub, k))
      && (r.None? ==> forall k :: 0 <= k <= |s| ==> !OccursAt(s, sub, k))
  {
    FindFromFirst(s, sub, 0);
  }

  /** An occurrence with none before it is the one `find` returns. */
  lemma FindIs(s: string, sub: string, c: nat)
    requires OccursAt(s, sub, c)
    requires forall k :: 0 <= k < c ==> !OccursAt(s, sub, k)
    ensures Find(s, sub) == Some(c)
  {
    FindFirst(s, sub);
  }

  /** Rust's `str::split_once` for a char pattern. */
  function SplitOnce(s: string, c: char): (r: Option<(string, string)>)
    ensures r.Some? <==> c in s
    ensures r.Some? ==> s == r.value.0 + [c] + r.value.1 && c !in r.value.0
  {
    match FindChar(s, c)
    case None => None
    case Some(k) => Some((s[..k], s[k + 1..]))
  }

  function StripCr(l: string): (r: string)
    ensures r == l || (l == r + ['\r'])
  {
    if l != [] && l[|l| - 1] == '\r' then l[..|l| - 1] else l
  }

  /** Rust's `str::lines`: split at '\n', drop a '\r' that precedes a '\n', no final empty line. */
  function Lines(s: string): (r: seq<string>)
    ensures s == [] <==> r == []
    ensures forall k :: 0 <= k < |r| ==> '\n' !in r[k]
    decreases |s|
  {
    if s == [] then []
    else match FindChar(s, '\n')
      case None => [s]
      case Some(k) => [StripCr(s[..k])] + Lines(s[k + 1..])
  }

  /** Equal texts have equal lines; calling this spares the verifier unfolding `Lines` on both sides. */
  lemma LinesOfEqual(a: string, b: string)
    requires a == b
    ensures Lines(a) == Lines(b)
  {
  }

  /** Rust's `str::split` for a char pattern: always at least one piece. */
  function SplitChar(s: string, c: char): (r: seq<string>)
    ensures |r| >= 1
    ensures forall k :: 0 <= k < |r| ==> c !in r[k]
    decreases |s|
  {
    match FindChar(s, c)
    case None => [s]
    case Some(k) => [s[..k]] + SplitChar(s[k + 1..], c)
  }

  /** Rust's `str::split` for a string pattern (non-overlapping, left to right). */
  function SplitOn(s: string, sep: string): (r: seq<string>)
    requires sep != []
    ensures |r| >= 1
    decreases |s|
  {
    match Find(s, sep)
    case None => [s]
    case Some(k) => [s[..k]] + SplitOn(s[k + |sep|..], sep)
  }

  /** No occurrence of the separator starts inside a prefix that lacks its first character. */
  lemma NoOccurrenceInPrefix(p: string, t: string, sep: string, k: nat)
    requires sep != [] && sep[0] !in p && k < |p|
    ensures !OccursAt(p + t, sep, k)
  {
    assert (p + t)[k] == p[k];
    if k + |sep| <= |p + t| {
      assert (p + t)[k..k + |sep|][0] == p[k];
    }
  }

  /** Past the prefix, the occurrences are those of the rest, moved by the prefix's length. */
  lemma OccurrenceAfterPrefix(p: string, t: string, sep: string, j: nat)
    requires j <= |t|
    ensures OccursAt(p + t, sep, |p| + j) == OccursAt(t, sep, j)
  {
    if j + |sep| <= |t| {
      assert (p + t)[|p| + j..|p| + j + |sep|] == t[j..j + |sep|];
    }
  }

  /** A prefix without the separator's first character becomes part of the first piece. */
  lemma SplitOnPrefix(p: string, t: string, sep: string)
    requires sep != [] && sep[0] !in p
    ensures SplitOn(p + t, sep) == [p + SplitOn(t, sep)[0]] + SplitOn(t, sep)[1..]
  {
    FindFirst(t, sep);
    if Find(t, sep).None? {
      SplitOnPrefixNone(p, t, sep);
    } else {
      SplitOnPrefixAt(p, t, sep, Find(t, sep).value);
    }
  }

  /** The first occurrence in the whole is the first one in the rest, moved by the prefix. */
  lemma FindAfterPrefix(p: string, t: string, sep: string, j: nat)
    requires sep != [] && sep[0] !in p && Find(t, sep) == Some(j)
    ensures Find(p + t, sep) == Some(|p| + j)
  {
    FindFirst(t, sep);
    forall k | 0 <= k < |p| + j
      ensures !OccursAt(p + t, sep, k)
    {
      if k < |p| {
        NoOccurrenceInPrefix(p, t, sep, k);
      } else {
        OccurrenceAfterPrefix(p, t, sep, k - |p|);
      }
    }
    OccurrenceAfterPrefix(p, t, sep, j);
    FindIs(p + t, sep, |p| + j);
  }

  lemma SplitOnPrefixAt(p: string, t: string, sep: string, j: nat)
    requires sep != [] && sep[0] !in p && Find(t, sep) == Some(j)
    ensures SplitOn(p + t, sep) == [p + SplitOn(t, sep)[0]] + SplitOn(t, sep)[1..]
  {
    var s := p + t;
    FindAfterPrefix(p, t, sep, j);
    SplitOnAt(t, sep, j, t[j + |sep|..]);
    SplitOnAt(s, sep, |p| + j, t[j + |sep|..]);
    assert s[|p| + j + |sep|..] == t[j + |sep|..];
    assert s[..|p| + j] == p + t[..j];
  }

  /** Cutting at the first occurrence. */
  lemma SplitOnAt(s: string, sep: string, k: nat, rest: string)
    requires sep != [] && Find(s, sep) == Some(k) && k + |sep| <= |s| && rest == s[k + |sep|..]
    ensures SplitOn(s, sep) == [s[..k]] + SplitOn(rest, sep)
  {
  }

  /** Without an occurrence in the rest, there is none in the whole. */
  lemma SplitOnPrefixNone(p: string, t: string, sep: string)
    requires sep != [] && sep[0] !in p
    requires forall k :: 0 <= k <= |t| ==> !OccursAt(t, sep, k)
    ensures SplitOn(p + t, sep) == [p + t] && SplitOn(t, sep) == [t]
  {
    FindFirst(t, sep);
    var s := p + t;
    if Find(s, sep).Some? {
      var c := Find(s, sep).value;
      if c < |p| {
        NoOccurrenceInPrefix(p, t, sep, c);
      } else {
        OccurrenceAfterPrefix(p, t, sep, c - |p|);
      }
    }
  }

  /** A text that starts with the separator splits into an empty piece and the rest's pieces. */
  lemma SplitOnLead(t: string, sep: string)
    requires sep != []
    ensures SplitOn(sep + t, sep) == [[]] + SplitOn(t, sep)
  {
    var s := sep + t;
    assert s[0..|sep|] == sep;
    FindIs(s, sep, 0);
    assert s[|sep|..] == t;
  }

  /** A character missing from a text is missing from every piece `split` cuts it into. */
  lemma {:induction false} SplitCharWithout(s: string, c: char, x: char)
    requires x !in s
    ensures forall k :: 0 <= k < |SplitChar(s, c)| ==> x !in SplitChar(s, c)[k]
    decreases |s|
  {
    match FindChar(s, c)
    case None =>
    case Some(k) =>
      assert s == s[..k] + s[k..];
      assert s[k..] == [s[k]] + s[k + 1..];
      SplitCharWithout(s[k + 1..], c, x);
  }

  /** `trim` keeps a slice of its argument, so a character missing from a text is missing from its trim. */
  lemma TrimWithout(s: string, x: char)
    requires x !in s
    ensures x !in Trim(s)
  {
    TrimStartShape(s);
    TrimEndShape(TrimStart(s));
    var t := TrimStart(s);
    assert s == s[..|s| - |t|] + t;
    assert t == Trim(s) + t[|Trim(s)|..];
  }

  /** Rust's `[&str]::join`. */
  function Join(parts: seq<string>, sep: string): string {
    if parts == [] then []
    else if |parts| == 1 then parts[0]
    else parts[0] + sep + Join(parts[1..], sep)
  }

  /** A join starts with its first part. */
  lemma JoinStartsWithFirst(parts: seq<string>, sep: string)
    requires parts != []
    ensures StartsWith(Join(parts, sep), parts[0])
  {
    if |parts| > 1 {
      var j := Join(parts, sep);
      assert j == parts[0] + (sep + Join(parts[1..], sep));
      assert j[..|parts[0]|] == parts[0];
    }
  }

  lemma {:induction false} JoinSplitChar(s: string, c: char)
    ensures Join(SplitChar(s, c), [c]) == s
    decreases |s|
  {
    match FindChar(s, c)
    case None =>
    case Some(k) =>
      JoinSplitChar(s[k + 1..], c);
      JoinCons(s[..k], SplitChar(s[k + 1..], c), [c]);
      assert s == s[..k] + [c] + s[k + 1..];
  }

  /** Joining two non-empty lists of parts puts one separator between their joins. */
  lemma {:induction false} JoinAppend(xs: seq<string>, ys: seq<string>, sep: string)
    requires xs != [] && ys != []
    ensures Join(xs + ys, sep) == Join(xs, sep) + sep + Join(ys, sep)
    decreases |xs|
  {
    if |xs| == 1 {
      JoinCons(xs[0], ys, sep);
      assert [xs[0]] + ys == xs + ys;
    } else {
      JoinAppend(xs[1..], ys, sep);
      assert (xs + ys)[1..] == xs[1..] + ys;
      assert (xs + ys)[0] == xs[0];
    }
  }

  /** Joining a part in front of at least one more adds the part and a separator. */
  lemma JoinCons(part: string, rest: seq<string>, sep: string)
    requires rest != []
    ensures Join([part] + rest, sep) == part + sep + Join(rest, sep)
  {
    assert ([part] + rest)[1..] == rest;
  }

  lemma {:induction false} SplitCharJoin(parts: seq<string>, c: char)
    requires |parts| >= 1
    requires forall k :: 0 <= k < |parts| ==> c !in parts[k]
    ensures SplitChar(Join(parts, [c]), c) == parts
    decreases |parts|
  {
    if |parts| > 1 {
      var rest := Join(parts[1..], [c]);
      var s := parts[0] + ([c] + rest);
      assert Join(parts, [c]) == s;
      FindCharAfter(parts[0], c, [c] + rest);
      assert s[..|parts[0]|] == parts[0];
      assert s[|parts[0]| + 1..] == rest;
      SplitCharJoin(parts[1..], c);
    } else {
      assert FindChar(parts[0], c).None?;
    }
  }

  /** The first `c` of `a + b` lies in `b` when `a` has none; it is `b[0]` when `b` starts with `c`. */
  lemma {:induction false} FindCharAfter(a: string, c: char, b: string)
    requires c !in a
    requires b != [] && b[0] == c
    ensures FindChar(a + b, c) == Some(|a|)
  {
    if a != [] {
      assert (a + b)[1..] == a[1..] + b;
      FindCharAfter(a[1..], c, b);
    }
  }

  /** A line without a newline or a final carriage return, then a newline: the first of the lines. */
  lemma LinesHead(a: string, b: string)
    requires '\n' !in a && (a == [] || a[|a| - 1] != '\r')
    ensures Lines(a + "\n" + b) == [a] + Lines(b)
  {
    var s := a + "\n" + b;
    assert s == a + ("\n" + b);
    FindCharAfter(a, '\n', "\n" + b);
    assert s[..|a|] == a;
    assert StripCr(a) == a;
    assert Lines(s) == [StripCr(s[..|a|])] + Lines(s[|a| + 1..]);
    assert s[|a| + 1..] == b;
  }

  lemma {:induction false} LinesJoin(parts: seq<string>)
    requires forall k :: 0 <= k < |parts| ==> '\n' !in parts[k] && (parts[k] == [] || parts[k][|parts[k]| - 1] != '\r')
    requires parts != [] ==> parts[|parts| - 1] != []
    ensures Lines(Join(parts, "\n")) == parts
    decreases |parts|
  {
    if |parts| == 1 {
      assert FindChar(parts[0], '\n').None?;
    } else if |parts| > 1 {
      var rest := Join(parts[1..], "\n");
      assert Join(parts, "\n") == parts[0] + "\n" + rest;
      LinesHead(parts[0], rest);
      LinesJoin(parts[1..]);
      assert [parts[0]] + parts[1..] == parts;
    }
  }


  /** Extending a slice by one element appends that element. */
  lemma SliceExtend<T>(s: seq<T>, a: nat, b: nat)
    requires a <= b < |s|
    ensures s[a..b + 1] == s[a..b] + [s[b]]
  {
  }

  /** Rust's `str::split_whitespace`: the maximal runs of non-whitespace characters. */
  function SplitWhitespace(s: string): (r: seq<string>)
    ensures forall k :: 0 <= k < |r| ==> r[k] != [] && forall j :: 0 <= j < |r[k]| ==> !IsWhitespace(r[k][j])
    decreases |s|
  {
    var t := TrimStart(s);
    if t == [] then []
    else
      TrimStartShape(s);
      var w := WordAt(t);
      [w] + SplitWhitespace(t[|w|..])
  }

  /** The leading run of non-whitespace characters of `s`. */
  function WordAt(s: string): (w: string)
    ensures |w| <= |s| && w == s[..|w|]
    ensures forall j :: 0 <= j < |w| ==> !IsWhitespace(w[j])
    ensures |w| == |s| || IsWhitespace(s[|w|])
  {
    if s == [] || IsWhitespace(s[0]) then [] else [s[0]] + WordAt(s[1..])
  }

  /** Rust's `str::trim_start_matches` for a char. */
  function TrimStartMatches(s: string, c: char): (r: string)
    ensures |r| <= |s| && r == s[|s| - |r|..]
    ensures r == [] || r[0] != c
    ensures forall k :: 0 <= k < |s| - |r| ==> s[k] == c
  {
    if s != [] && s[0] == c then TrimStartMatches(s[1..], c) else s
  }

  /** Rust's `str::trim_end_matches` for a char. */
  function TrimEndMatches(s: string, c: char): (r: string)
    ensures |r| <= |s| && r == s[..|r|]
    ensures r == [] || r[|r| - 1] != c
    ensures forall k :: |r| <= k < |s| ==> s[k] == c
  {
    if s != [] && s[|s| - 1] == c then TrimEndMatches(s[..|s| - 1], c) else s
  }

  /** Rust's `str::trim_matches` for a char. */
  function TrimMatches(s: string, c: char): (r: string)
    ensures r == [] || (r[0] != c && r[|r| - 1] != c)
  {
    TrimEndMatches(TrimStartMatches(s, c), c)
  }

  /** Rust's `str::replace("\r\n", "\n")`. */
  function ReplaceCrlf(s: string): (r: string)
    ensures |r| <= |s|
  {
    if |s| >= 2 && s[0] == '\r' && s[1] == '\n' then "\n" + ReplaceCrlf(s[2..])
    else if s == [] then []
    else [s[0]] + ReplaceCrlf(s[1..])
  }

  /** Replacing `\r\n` by `\n` brings in no character but `\n`. */
  lemma {:induction false} CrlfWithout(s: string, x: char)
    requires x !in s && x != '\n'
    ensures x !in ReplaceCrlf(s)
    decreases |s|
  {
    if |s| >= 2 && s[0] == '\r' && s[1] == '\n' {
      assert s == s[..2] + s[2..];
      CrlfWithout(s[2..], x);
    } else if s != [] {
      assert s == [s[0]] + s[1..];
      CrlfWithout(s[1..], x);
    }
  }

  /** The number of leading characters of `s` equal to `c` (`take_while(|x| x == c).count()`). */
  function RunLength(s: string, c: char): (n: nat)
    ensures n <= |s|
    ensures forall k :: 0 <= k < n ==> s[k] == c
    ensures n == |s| || s[n] != c
  {
    if s != [] && s[0] == c then 1 + RunLength(s[1..], c) else 0
  }

  /** `s` repeated `n` times. */
  function Repeat(c: char, n: nat): (r: string)
    ensures |r| == n && forall k :: 0 <= k < n ==> r[k] == c
  {
    if n == 0 then [] else [c] + Repeat(c, n - 1)
  }

  /** The number of occurrences of `c` in `s`. */
  function Count(s: string, c: char): nat {
    multiset(s)[c]
  }

  /** `split(c)` yields one more piece than there are separators. */
  lemma {:induction false} SplitCharCount(s: string, c: char)
    ensures |SplitChar(s, c)| == Count(s, c) + 1
    decreases |s|
  {
    match FindChar(s, c)
    case None =>
    case Some(k) =>
      assert s == s[..k] + [c] + s[k + 1..];
      SplitCharCount(s[k + 1..], c);
  }

  /** Every character is an ASCII digit; `AllDigitsIff` states it position by position. */
  predicate AllDigits(s: string) {
    s == [] || (IsAsciiDigit(s[0]) && AllDigits(s[1..]))
  }

  lemma {:induction false} AllDigitsIff(s: string)
    ensures AllDigits(s) <==> forall k :: 0 <= k < |s| ==> IsAsciiDigit(s[k])
  {
    if s != [] {
      AllDigitsIff(s[1..]);
      assert forall k :: 1 <= k < |s| ==> s[1..][k - 1] == s[k];
    }
  }

  /** Digits without the last one are digits. */
  lemma AllDigitsInit(s: string)
    requires s != [] && AllDigits(s)
    ensures AllDigits(s[..|s| - 1]) && IsAsciiDigit(s[|s| - 1])
  {
    AllDigitsIff(s);
    AllDigitsIff(s[..|s| - 1]);
  }

  /** The value of a string of decimal digits. */
  function DigitsValue(s: string): nat
    requires AllDigits(s)
  {
    if s == [] then 0
    else
      AllDigitsInit(s);
      DigitsValue(s[..|s| - 1]) * 10 + (s[|s| - 1] as int - '0' as int)
  }

  /** One more than the largest `usize` (a 64-bit target). */
  const UsizeBound: nat := 0x1_0000_0000_0000_0000

  /** Rust's `str::parse::<usize>`: an optional `+`, at least one digit, no overflow. */
  function ParseUsize(s: string): (r: Option<nat>)
    ensures r.Some? ==> r.value < UsizeBound && s != []
  {
    var d := if s != [] && s[0] == '+' then s[1..] else s;
    if d != [] && AllDigits(d) && DigitsValue(d) < UsizeBound then Some(DigitsValue(d)) else None
  }

  /** The decimal rendering of `n`, without leading zeros. */
  function ShowNat(n: nat): (r: string)
    ensures r != [] && AllDigits(r)
  {
    if n < 10 then
      assert [('0' as int + n) as char][1..] == [];
      [('0' as int + n) as char]
    else
      var p := ShowNat(n / 10);
      AllDigitsIff(p);
      AllDigitsIff(p + [('0' as int + n % 10) as char]);
      p + [('0' as int + n % 10) as char]
  }

  lemma {:induction false} ShowNatValue(n: nat)
    ensures DigitsValue(ShowNat(n)) == n
  {
    if n >= 10 {
      ShowNatValue(n / 10);
      var r := ShowNat(n);
      assert r[..|r| - 1] == ShowNat(n / 10);
    }
  }

  /** Parsing reads back every `usize` written in decimal. */
  lemma ParseShowNat(n: nat)
    requires n < UsizeBound
    ensures ParseUsize(ShowNat(n)) == Some(n)
  {
    ShowNatValue(n);
    AllDigitsIff(ShowNat(n));
  }
}
