/**
 * The app's small Markdown renderer: content is cut into lines; each line
 * is a list item ("- "), a header ("# "), a spacer (blank) or a paragraph;
 * and the text of a line is cut into bold (`**…**`), italic (`*…*`),
 * code (`` `…` ``) and plain pieces by a regular-expression split whose
 * capturing group keeps the delimited pieces.
 */
module Markdown {
  import opened Wrappers
  import Strings

  /** The characters `.` does not match in a JavaScript regular expression. */
  predicate IsLineTerminator(c: char) {
    c == '\n' || c == '\r' || c == ' ' || c == ' '
  }

  /**
   * The lazy `.*?` followed by `close`, scanning from `j`: the end of the
   * first `close` reached before a line terminator, if any.
   */
  function Close(s: string, j: nat, close: string): (r: Option<nat>)
    requires |close| > 0
    ensures r.Some? ==> j + |close| <= r.value <= |s| && s[r.value - 1] == close[|close| - 1]
    decreases |s| - j
  {
    if j + |close| <= |s| && s[j..j + |close|] == close then
      assert s[j + |close| - 1] == s[j..j + |close|][|close| - 1];
      Some(j + |close|)
    else if j >= |s| || IsLineTerminator(s[j]) then None
    else Close(s, j + 1, close)
  }

  /**
   * What the scan finds is the first `close` after `j`, with no line
   * terminator and no earlier `close` in between.
   */
  lemma {:induction false} CloseFound(s: string, j: nat, close: string)
    requires |close| > 0 && Close(s, j, close).Some?
    ensures var e := Close(s, j, close).value;
      s[e - |close|..e] == close &&
      (forall k :: j <= k < e - |close| ==> !IsLineTerminator(s[k]) && s[k..k + |close|] != close)
    decreases |s| - j
  {
    if !(j + |close| <= |s| && s[j..j + |close|] == close) {
      assert Close(s, j, close) == Close(s, j + 1, close) && !IsLineTerminator(s[j]);
      CloseFound(s, j + 1, close);
      var e := Close(s, j, close).value;
      forall k | j <= k < e - |close|
        ensures !IsLineTerminator(s[k]) && s[k..k + |close|] != close
      {
        if k == j {
          assert j + |close| <= |s|;
        }
      }
    }
  }

  /**
   * The pattern `\*\*.*?\*\*|\*.*?\*|`.*?`` tried at position `q` only:
   * the alternatives in order, each with its shortest match. The result is
   * the end of the match.
   */
  function MatchAt(s: string, q: nat): (r: Option<nat>)
    ensures r.Some? ==> q + 2 <= r.value <= |s|
    ensures r.Some? ==> (s[q] == '*' || s[q] == '`') && s[r.value - 1] == s[q]
  {
    if q + 2 <= |s| && s[q..q + 2] == "**" && Close(s, q + 2, "**").Some? then
      assert s[q] == s[q..q + 2][0] && "**"[1] == '*';
      Close(s, q + 2, "**")
    else if q < |s| && s[q] == '*' && Close(s, q + 1, "*").Some? then
      assert "*"[0] == '*';
      Close(s, q + 1, "*")
    else if q < |s| && s[q] == '`' && Close(s, q + 1, "`").Some? then
      assert "`"[0] == '`';
      Close(s, q + 1, "`")
    else None
  }

  /**
   * `String.prototype.split` with the capturing pattern, from the piece
   * starting at `p` and the search position `q`: the text before each
   * match, then the match, and finally the text after the last match.
   */
  function SplitFrom(s: string, p: nat, q: nat): (parts: seq<string>)
    requires p <= q <= |s|
    ensures |parts| % 2 == 1
    decreases |s| - q
  {
    if q == |s| then [s[p..]]
    else match MatchAt(s, q)
      case Some(e) => [s[p..q], s[q..e]] + SplitFrom(s, e, e)
      case None => SplitFrom(s, p, q + 1)
  }

  function SplitInline(s: string): seq<string> {
    SplitFrom(s, 0, 0)
  }

  function Concat(parts: seq<string>): string {
    if |parts| == 0 then "" else parts[0] + Concat(parts[1..])
  }

  /** A match at `q` cuts off the text before it and the match. */
  lemma SplitAtMatch(s: string, p: nat, q: nat, e: nat)
    requires p <= q < |s| && MatchAt(s, q) == Some(e)
    ensures SplitFrom(s, p, q) == [s[p..q], s[q..e]] + SplitFrom(s, e, e)
  {
  }

  /** No match at `q`: the scan moves on one position. */
  lemma SplitPastNoMatch(s: string, p: nat, q: nat)
    requires p <= q < |s| && MatchAt(s, q).None?
    ensures SplitFrom(s, p, q) == SplitFrom(s, p, q + 1)
  {
  }

  /** The pieces put back together give the text they were cut from. */
  lemma {:induction false} SplitFromConcat(s: string, p: nat, q: nat)
    requires p <= q <= |s|
    ensures Concat(SplitFrom(s, p, q)) == s[p..]
    decreases |s| - q
  {
    if q < |s| {
      var m := MatchAt(s, q);
      if m.Some? {
        var e := m.value;
        SplitFromConcat(s, e, e);
        SplitAtMatch(s, p, q, e);
        ConcatPair(s[p..q], s[q..e], SplitFrom(s, e, e));
        assert s[p..] == s[p..q] + (s[q..e] + s[e..]);
      } else {
        SplitFromConcat(s, p, q + 1);
        SplitPastNoMatch(s, p, q);
      }
    }
  }

  lemma ConcatPair(a: string, b: string, rest: seq<string>)
    ensures Concat([a, b] + rest) == a + (b + Concat(rest))
  {
    assert ([a, b] + rest)[1..] == [b] + rest;
    assert ([b] + rest)[1..] == rest;
  }

  /** A piece a match produced: it starts and ends with the same star or backtick. */
  predicate Delimited(w: string) {
    |w| >= 2 && (w[0] == '*' || w[0] == '`') && w[|w| - 1] == w[0]
  }

  /** Every second piece is a match. */
  predicate OddPartsDelimited(parts: seq<string>) {
    forall k :: 0 <= k < |parts| && k % 2 == 1 ==> Delimited(parts[k])
  }

  /** The text between two positions a match spans is delimited. */
  lemma MatchDelimited(s: string, q: nat, e: nat)
    requires q < |s| && MatchAt(s, q) == Some(e)
    ensures Delimited(s[q..e])
  {
    var w := s[q..e];
    assert w[0] == s[q] && w[|w| - 1] == s[e - 1];
  }

  /** Two pieces in front of an alternating list keep it alternating. */
  lemma PrependPair(a: string, w: string, rest: seq<string>)
    requires Delimited(w) && OddPartsDelimited(rest)
    ensures OddPartsDelimited([a, w] + rest)
  {
    var parts := [a, w] + rest;
    forall k | 0 <= k < |parts| && k % 2 == 1 ensures Delimited(parts[k]) {
      if k >= 2 {
        assert parts[k] == rest[k - 2] && (k - 2) % 2 == 1;
      }
    }
  }

  lemma {:induction false} SplitFromMatches(s: string, p: nat, q: nat)
    requires p <= q <= |s|
    ensures OddPartsDelimited(SplitFrom(s, p, q))
    decreases |s| - q
  {
    if q < |s| {
      var m := MatchAt(s, q);
      if m.Some? {
        var e := m.value;
        SplitFromMatches(s, e, e);
        SplitAtMatch(s, p, q, e);
        MatchDelimited(s, q, e);
        PrependPair(s[p..q], s[q..e], SplitFrom(s, e, e));
      } else {
        SplitFromMatches(s, p, q + 1);
        SplitPastNoMatch(s, p, q);
      }
    }
  }

  /** Splitting a line loses and adds no character. */
  lemma SplitInlineConcat(s: string)
    ensures Concat(SplitInline(s)) == s
  {
    SplitFromConcat(s, 0, 0);
  }

  /** The renderings of a piece. */
  datatype Inline = Text(text: string) | Bold(text: string) | Italic(text: string) | Code(text: string)

  /** `slice(n, -n)`: the piece without n characters at each end, empty when it is too short. */
  function Inner(part: string, n: nat): string {
    if |part| >= 2 * n then part[n..|part| - n] else ""
  }

  /** The checks of parseInline, bold first: a piece wrapped in a delimiter renders as that style. */
  function RenderPart(part: string): Inline {
    if Strings.StartsWith(part, "**") && Strings.EndsWith(part, "**") then Bold(Inner(part, 2))
    else if Strings.StartsWith(part, "*") && Strings.EndsWith(part, "*") then Italic(Inner(part, 1))
    else if Strings.StartsWith(part, "`") && Strings.EndsWith(part, "`") then Code(Inner(part, 1))
    else Text(part)
  }

  function RenderParts(parts: seq<string>): (r: seq<Inline>)
    ensures |r| == |parts| && forall k :: 0 <= k < |parts| ==> r[k] == RenderPart(parts[k])
  {
    seq(|parts|, k requires 0 <= k < |parts| => RenderPart(parts[k]))
  }

  /** parseInline. */
  function ParseInline(text: string): seq<Inline> {
    RenderParts(SplitInline(text))
  }

  /** From `j`, a stretch with no star and no line break up to `e`, then `close`: the scan ends after that `close`. */
  lemma {:induction false} CloseAfterPlain(s: string, j: nat, e: nat, close: string)
    requires |close| > 0 && close[0] == '*'
    requires j <= e && e + |close| <= |s| && s[e..e + |close|] == close
    requires forall k :: j <= k < e ==> s[k] != '*' && !IsLineTerminator(s[k])
    ensures Close(s, j, close) == Some(e + |close|)
    decreases e - j
  {
    if j < e {
      assert s[j..j + |close|][0] == s[j];
      CloseAfterPlain(s, j + 1, e, close);
    }
  }

  /** A line that is one match splits into that match between two empty texts. */
  lemma WholeMatch(s: string)
    requires |s| > 0 && MatchAt(s, 0) == Some(|s|)
    ensures SplitInline(s) == ["", s, ""]
  {
    assert SplitInline(s) == [s[0..0], s[0..|s|]] + SplitFrom(s, |s|, |s|);
    assert s[|s|..] == "";
    assert SplitFrom(s, |s|, |s|) == [""];
    assert s[0..0] == "" && s[0..|s|] == s;
  }

  /** A matched piece is always styled: it renders as bold, italic or code, never as plain text. */
  lemma MatchedPiecesStyled(text: string)
    ensures forall k :: 0 <= k < |ParseInline(text)| && k % 2 == 1 ==> !ParseInline(text)[k].Text?
  {
    SplitFromMatches(text, 0, 0);
    var parts := SplitInline(text);
    forall k | 0 <= k < |parts| && k % 2 == 1 ensures !RenderPart(parts[k]).Text? {
      DelimitedStyled(parts[k]);
    }
  }

  lemma DelimitedStyled(w: string)
    requires Delimited(w)
    ensures !RenderPart(w).Text?
  {
    assert w[..1] == [w[0]] && w[|w| - 1..] == [w[|w| - 1]];
  }

  /**
   * "**x**" is bold x and never italic "*x*": the bold alternative is tried
   * first and wins, and the renderer tests for bold first.
   */
  lemma BoldBeforeItalic(x: string)
    requires forall c :: c in x ==> c != '*' && !IsLineTerminator(c)
    ensures ParseInline("**" + x + "**") == [Text(""), Bold(x), Text("")]
  {
    var s := "**" + x + "**";
    BoldMatch(x);
    ParseWhole(s);
    assert RenderPart(s) == Bold(x) by {
      assert s[..2] == "**" && s[|s| - 2..] == "**";
      assert s[2..|s| - 2] == x;
    }
  }

  /** A line that is one match renders as that piece between two empty texts. */
  lemma ParseWhole(s: string)
    requires |s| > 0 && MatchAt(s, 0) == Some(|s|)
    ensures ParseInline(s) == [Text(""), RenderPart(s), Text("")]
  {
    WholeMatch(s);
    assert RenderPart("") == Text("");
  }

  /** The bold alternative matches the whole of "**x**". */
  lemma BoldMatch(x: string)
    requires forall c :: c in x ==> c != '*' && !IsLineTerminator(c)
    ensures MatchAt("**" + x + "**", 0) == Some(|x| + 4)
  {
    var s := "**" + x + "**";
    assert forall k :: 2 <= k < 2 + |x| ==> s[k] == x[k - 2] && s[k] in x;
    assert s[2 + |x|..|s|] == "**";
    CloseAfterPlain(s, 2, 2 + |x|, "**");
    assert s[0..2] == "**";
  }

  /** Text between single stars, with no star inside, is italic. */
  lemma ItalicPiece(x: string)
    requires forall c :: c in x ==> c != '*' && c != '`' && !IsLineTerminator(c)
    requires |x| > 0
    ensures ParseInline("*" + x + "*") == [Text(""), Italic(x), Text("")]
  {
    var s := "*" + x + "*";
    ItalicMatch(x);
    ParseWhole(s);
    assert x[0] in x;
    ItalicRender(x);
  }

  lemma ItalicRender(x: string)
    requires |x| > 0 && x[0] != '*'
    ensures RenderPart("*" + x + "*") == Italic(x)
  {
    var s := "*" + x + "*";
    assert !Strings.StartsWith(s, "**") by { assert s[..2][1] == x[0] && "**"[1] == '*'; }
    assert s[..1] == "*" && s[|s| - 1..] == "*";
    assert s[1..|s| - 1] == x;
  }

  /** The italic alternative matches the whole of "*x*" when x holds no star. */
  lemma ItalicMatch(x: string)
    requires forall c :: c in x ==> c != '*' && !IsLineTerminator(c)
    requires |x| > 0
    ensures MatchAt("*" + x + "*", 0) == Some(|x| + 2)
  {
    var s := "*" + x + "*";
    assert forall k :: 1 <= k < 1 + |x| ==> s[k] == x[k - 1] && s[k] in x;
    assert s[1 + |x|..|s|] == "*";
    CloseAfterPlain(s, 1, 1 + |x|, "*");
    assert s[0..2] != "**" by { assert s[1] == x[0]; }
  }

  /** A lone star is taken for an empty italic and disappears from the line. */
  lemma LoneStarVanishes()
    ensures ParseInline("*") == [Italic("")]
  {
    assert Close("*", 1, "*").None?;
    assert MatchAt("*", 0).None?;
    assert SplitInline("*") == SplitFrom("*", 0, 1) == ["*"];
  }

  // ----- Lines -----

  datatype Block = ListItem(items: seq<Inline>) | Header(items: seq<Inline>) | Spacer | Paragraph(items: seq<Inline>)

  /** The block a line renders as, classified on its trimmed text. */
  function RenderLine(line: string): Block {
    var trimmed := Strings.JsTrim(line);
    if Strings.StartsWith(trimmed, "- ") then ListItem(ParseInline(trimmed[2..]))
    else if Strings.StartsWith(trimmed, "# ") then Header(ParseInline(trimmed[2..]))
    else if trimmed == "" then Spacer
    else Paragraph(ParseInline(line))
  }

  function RenderLines(lines: seq<string>): (r: seq<Block>)
    ensures |r| == |lines| && forall k :: 0 <= k < |lines| ==> r[k] == RenderLine(lines[k])
  {
    seq(|lines|, k requires 0 <= k < |lines| => RenderLine(lines[k]))
  }

  /** The Markdown component: nothing for empty content, else one block per line. */
  function Render(content: string): (r: Option<seq<Block>>)
    ensures r.None? <==> content == ""
  {
    if content == "" then None else Some(RenderLines(Strings.Split(content, '\n')))
  }

  /** There is one block per '\n'-separated line, and the blocks follow the lines. */
  lemma RenderBlocks(content: string)
    requires content != ""
    ensures var r := Render(content).value;
      && |r| == Strings.Count(content, '\n') + 1
      && forall k :: 0 <= k < |r| ==> r[k] == RenderLine(Strings.Split(content, '\n')[k])
  {
    Strings.SplitParts(content, '\n');
  }

  /**
   * A list item or header renders the trimmed line after its two-character
   * marker; a paragraph renders the line as it is, surrounding spaces
   * included.
   */
  lemma RenderLineCases(line: string)
    ensures var t := Strings.JsTrim(line);
      && (Strings.StartsWith(t, "- ") ==> RenderLine(line) == ListItem(ParseInline(t[2..])))
      && (!Strings.StartsWith(t, "- ") && Strings.StartsWith(t, "# ") ==> RenderLine(line) == Header(ParseInline(t[2..])))
      && (!Strings.StartsWith(t, "- ") && !Strings.StartsWith(t, "# ") ==>
            (RenderLine(line) == Spacer <==> Strings.IsBlank(line)))
      && (!Strings.StartsWith(t, "- ") && !Strings.StartsWith(t, "# ") && !Strings.IsBlank(line) ==>
            RenderLine(line) == Paragraph(ParseInline(line)))
  {
  }

  /** "- " is tested before "# ": a line "- # x" is a list item holding "# x". */
  lemma ListBeforeHeader()
    ensures RenderLine("- # x") == ListItem(ParseInline("# x"))
  {
    assert Strings.JsTrim("- # x") == "- # x" by {
      Strings.TrimUntrimmed("- # x", Strings.IsJsSpace);
    }
  }
}
