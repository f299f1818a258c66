/** Image lines `![alt](path)` and the `@` directives inside their alt text (`parse_image`, `parse_image_alt`). */
module BlockImage {
  import opened Wrappers
  import opened Strings
  import opened Ast

  /** The effect of one `@`-word (without its `@`) on the directives; unknown words change nothing. */
  function ApplyDirective(d: ImageDirectives, dir: string): ImageDirectives {
    if dir == "fill" then d.(fill := true)
    else if dir == "fit" then d.(fit := true)
    else if dir == "left" then d.(align := Some("left"))
    else if dir == "right" then d.(align := Some("right"))
    else if dir == "center" then d.(align := Some("center"))
    else if StartsWith(dir, "width:") then d.(width := Some(dir[6..]))
    else if StartsWith(dir, "height:") then d.(height := Some(dir[7..]))
    else d
  }

  /** The kept alt words and the directives after the given words, in order. */
  function AltFold(words: seq<string>): (seq<string>, ImageDirectives) {
    if words == [] then ([], NoImageDirectives)
    else
      var before := AltFold(words[..|words| - 1]);
      var w := words[|words| - 1];
      match StripPrefix(w, "@")
      case Some(dir) => (before.0, ApplyDirective(before.1, dir))
      case None => (before.0 + [w], before.1)
  }

  /** `parse_image_alt` as a function: the alt text and the directives. */
  function ImageAlt(altFull: string): (string, ImageDirectives) {
    var r := AltFold(SplitWhitespace(altFull));
    (Join(r.0, " "), r.1)
  }

  /** `parse_image_alt`: one pass over the whitespace-separated words. */
  method ParseImageAlt(altFull: string) returns (alt: string, directives: ImageDirectives)
    ensures alt == ImageAlt(altFull).0
    ensures directives == ImageAlt(altFull).1
  {
    var words := SplitWhitespace(altFull);
    directives := NoImageDirectives;
    var altParts: seq<string> := [];
    var k := 0;
    while k < |words|
      invariant k <= |words|
      invariant altParts == AltFold(words[..k]).0
      invariant directives == AltFold(words[..k]).1
    {
      var word := words[k];
      assert words[..k + 1][..k] == words[..k];
      match StripPrefix(word, "@") {
        case Some(directive) =>
          if directive == "fill" {
            directives := directives.(fill := true);
          } else if directive == "fit" {
            directives := directives.(fit := true);
          } else if directive == "left" {
            directives := directives.(align := Some("left"));
          } else if directive == "right" {
            directives := directives.(align := Some("right"));
          } else if directive == "center" {
            directives := directives.(align := Some("center"));
          } else if StartsWith(directive, "width:") {
            directives := directives.(width := Some(directive[6..]));
          } else if StartsWith(directive, "height:") {
            directives := directives.(height := Some(directive[7..]));
          }
        case None =>
          altParts := altParts + [word];
      }
      k := k + 1;
    }
    assert words[..k] == words;
    alt := Join(altParts, " ");
  }

  /** The alt words that are not `@`-words, in order. */
  function PlainWords(words: seq<string>): (r: seq<string>)
    ensures forall k :: 0 <= k < |r| ==> !StartsWith(r[k], "@")
  {
    if words == [] then []
    else PlainWords(words[..|words| - 1]) + (if StartsWith(words[|words| - 1], "@") then [] else [words[|words| - 1]])
  }

  /** Every `@`-word is removed from the alt text; every other word stays, in order. */
  lemma {:induction false} AltKeepsPlainWords(words: seq<string>)
    ensures AltFold(words).0 == PlainWords(words)
  {
    if words != [] {
      AltKeepsPlainWords(words[..|words| - 1]);
    }
  }

  /** The image fills the slide exactly when `@fill` is among the words; likewise `@fit`. */
  lemma {:induction false} AltFillFit(words: seq<string>)
    ensures AltFold(words).1.fill <==> "@fill" in words
    ensures AltFold(words).1.fit <==> "@fit" in words
  {
    if words != [] {
      var init, w := words[..|words| - 1], words[|words| - 1];
      AltFillFit(init);
      assert words == init + [w];
      assert "@fill" in words <==> "@fill" in init || w == "@fill";
      assert "@fit" in words <==> "@fit" in init || w == "@fit";
      if StartsWith(w, "@") {
        assert w == "@" + w[1..];
      }
    }
  }

  predicate IsAlignWord(w: string) {
    w == "@left" || w == "@right" || w == "@center"
  }

  /** The alignment named by the last alignment word, if any. */
  function LastAlign(words: seq<string>): Option<string> {
    if words == [] then None
    else if IsAlignWord(words[|words| - 1]) then Some(words[|words| - 1][1..])
    else LastAlign(words[..|words| - 1])
  }

  /** A later alignment word wins over an earlier one. */
  lemma {:induction false} AltAlignIsLast(words: seq<string>)
    ensures AltFold(words).1.align == LastAlign(words)
  {
    if words != [] {
      var w := words[|words| - 1];
      AltAlignIsLast(words[..|words| - 1]);
      if StartsWith(w, "@") {
        var dir := w[1..];
        assert w == "@" + dir;
        assert IsAlignWord(w) <==> dir == "left" || dir == "right" || dir == "center";
      }
    }
  }

  /** `parse_image`: `![alt](path)` at the start of a trimmed line; anything after `)` is ignored. */
  function ImageAt(line: string): (r: Option<Block>)
    ensures r.Some? ==> r.value.Image? && StartsWith(line, "![")
  {
    if !StartsWith(line, "![") then None
    else match Find(line, "](")
      case None => None
      case Some(close) =>
        var start := close + 2;
        match FindChar(line[start..], ')')
        case None => None
        case Some(len) =>
          var alt := ImageAlt(line[2..close]);
          Some(Image(alt.0, line[start..start + len], alt.1))
  }

  /** `parse_image`: the two searches, then the alt-text loop. */
  method ParseImage(line: string) returns (r: Option<Block>)
    ensures r == ImageAt(line)
  {
    if !StartsWith(line, "![") {
      return None;
    }
    var closeBracket := Find(line, "](");
    if closeBracket.None? {
      return None;
    }
    var parenStart := closeBracket.value + 2;
    var len := FindChar(line[parenStart..], ')');
    if len.None? {
      return None;
    }
    var path := line[parenStart..parenStart + len.value];
    var alt, directives := ParseImageAlt(line[2..closeBracket.value]);
    r := Some(Image(alt, path, directives));
  }

  /** Without a `](`, or without a `)` after it, the line is not an image. */
  lemma ImageNeedsDelimiters(line: string)
    ensures Find(line, "](").None? ==> ImageAt(line).None?
    ensures (Find(line, "](").Some? && Find(line, "](").value + 2 <= |line| &&
      ')' !in line[Find(line, "](").value + 2..]) ==> ImageAt(line).None?
  {
  }

  /** `](` at `k`, character by character. */
  lemma CloseAt(s: string, k: nat)
    ensures OccursAt(s, "](", k) <==> k + 2 <= |s| && s[k] == ']' && s[k + 1] == '('
  {
    if k + 2 <= |s| && s[k] == ']' && s[k + 1] == '(' {
      assert s[k..k + 2] == [s[k], s[k + 1]];
    }
  }

  /**
   * An image line is read back as written: the path is the text up to the first `)`, and the
   * alt text and directives come from the text in brackets.
   */
  lemma ImageRoundTrip(alt: string, path: string, rest: string)
    requires forall k :: 0 <= k < |alt| ==> !OccursAt(alt, "](", k)
    requires ')' !in path
    ensures ImageAt("![" + alt + "](" + path + ")" + rest) ==
      Some(Image(ImageAlt(alt).0, path, ImageAlt(alt).1))
  {
    var line := "![" + alt + "](" + path + ")" + rest;
    var close := 2 + |alt|;
    ImageLineParts(alt, path, rest);
    FirstCloseAfterAlt(alt, line);
    FindIs(line, "](", close);
    var tail := line[close + 2..];
    FindCharIs(tail, ')', |path|);
  }

  /** Where the pieces of `![alt](path)rest` sit. */
  lemma ImageLineParts(alt: string, path: string, rest: string)
    ensures var line := "![" + alt + "](" + path + ")" + rest; var close := 2 + |alt|;
      && |line| >= close + 3 + |path|
      && line[..2] == "![" && line[2..close] == alt && line[close] == ']' && line[close + 1] == '('
      && line[close + 2..][..|path|] == path && line[close + 2..][|path|] == ')'
      && line[close + 2..close + 2 + |path|] == path
  {
    var line := "![" + alt + "](" + path + ")" + rest;
    var close := 2 + |alt|;
    assert line == "![" + alt + "](" + (path + ")" + rest);
    assert line[close + 2..] == path + ")" + rest;
  }

  /** In `![alt](…`, the first `](` is the one right after the alt text. */
  lemma FirstCloseAfterAlt(alt: string, line: string)
    requires forall k :: 0 <= k < |alt| ==> !OccursAt(alt, "](", k)
    requires |line| >= |alt| + 4 && line[..2] == "![" && line[2..2 + |alt|] == alt
    requires line[2 + |alt|] == ']' && line[3 + |alt|] == '('
    ensures OccursAt(line, "](", 2 + |alt|)
    ensures forall k :: 0 <= k < 2 + |alt| ==> !OccursAt(line, "](", k)
  {
    var close := 2 + |alt|;
    CloseAt(line, close);
    forall k | 0 <= k < close
      ensures !OccursAt(line, "](", k)
    {
      CloseAt(line, k);
      if 2 <= k < close - 1 {
        CloseAt(alt, k - 2);
        assert line[k] == alt[k - 2] && line[k + 1] == alt[k - 1];
      } else if k < 2 {
        assert line[k] == "!["[k];
      }
    }
  }

  /** The words of `Photo @fill @left`: one alt word; the image fills and is left-aligned. */
  lemma AltFoldExample()
    ensures AltFold(["Photo", "@fill", "@left"]) ==
      (["Photo"], NoImageDirectives.(fill := true, align := Some("left")))
  {
    var w1: string, w2: string, w3: string := "Photo", "@fill", "@left";
    var one: seq<string> := [w1];
    assert w1[..1] == "P";
    assert StripPrefix(w2, "@") == Some("fill");
    assert StripPrefix(w3, "@") == Some("left");
    assert one[..0] == [];
    assert !StartsWith(w1, "@");
    assert AltFold(one[..0]) == ([], NoImageDirectives);
    assert StripPrefix(one[|one| - 1], "@") == None;
    assert AltFold(one).1 == NoImageDirectives;
    assert AltFold(one).0 == [w1];
    assert [w1, w2][..1] == [w1];
    assert AltFold([w1, w2]) == ([w1], NoImageDirectives.(fill := true));
    assert [w1, w2, w3][..2] == [w1, w2];
  }
}
