/** Paragraphs and the images that stand in them alone, and readers of both after
    CommonMark 0.31.2. */
module Paragraphs {
  import opened Wrappers
  import opened Text
  import opened Lines
  import opened Escapes
  import opened References
  import opened Containers
  import opened Links

  // ------------------------------------------------- HTML blocks (section 4.6)

  /** The names of the tags that start an HTML block, in lower case. */
  type Tags = set<string>

  const VERBATIM: Tags := {"pre", "script", "style", "textarea"}

  predicate IsLetter(c: char) {
    'a' <= c <= 'z' || 'A' <= c <= 'Z'
  }

  predicate IsTagChar(c: char) {
    IsLetter(c) || IsDigit(c)
  }

  function Lowered(s: string): (r: string)
    ensures |r| == |s|
  {
    seq(|s|, i requires 0 <= i < |s| => if 'A' <= s[i] <= 'Z' then s[i] - 'A' + 'a' else s[i])
  }

  /** A name out of a set, and behind it a blank, the end of the line or of the tag. */
  predicate TagStarts(s: string, tags: Tags, mayClose: bool) {
    var n := Leading(s, IsTagChar);
    && Lowered(s[..n]) in tags
    && (n == |s| || IsBlank(s[n]) || s[n] == '>' || (mayClose && n + 1 < |s| && s[n] == '/' && s[n + 1] == '>'))
  }

  /** The start conditions 1 to 6; the seventh does not interrupt a paragraph. */
  predicate HtmlStarts(s: string, tags: Tags) {
    && s != "" && s[0] == '<'
    && (|| TagStarts(s[1..], VERBATIM, false)
        || "<!--" <= s || "<?" <= s || "<![CDATA[" <= s || (|s| > 2 && s[1] == '!' && IsLetter(s[2]))
        || TagStarts(if |s| > 1 && s[1] == '/' then s[2..] else s[1..], tags, true))
  }

  // --------------------------------------------------- paragraphs (section 4.8)

  /** A code fence, with no backtick behind one of backticks (section 4.5). */
  predicate FenceStarts(s: string) {
    var n := Run(s, '`', '`');
    (n >= 3 && '`' !in s[n..]) || Run(s, '~', '~') >= 3
  }

  /** A list item that is not empty, and numbered 1 if at all (section 5.2). */
  predicate ListStarts(s: string) {
    var w := MarkerWidth(s);
    && 0 < w < |s| && IsBlank(s[w]) && !Blank(s[w..])
    && (w > 1 ==> (forall i | 0 <= i < w - 1 :: IsHexDigit(s[i])) && Value(s[..w - 1], 10) == 1)
  }

  /** A line, without its indentation, that does not go on with a paragraph: it makes
      a heading of it or starts another block. */
  predicate Interrupts(s: string, tags: Tags) {
    || ThematicBreak(s) || AtxHeading(s) || SetextUnderline(s) || FenceStarts(s) || (s != "" && s[0] == '>')
    || ListStarts(s) || HtmlStarts(s, tags)
  }

  /** The paragraph before s goes no further: the line s starts with is blank, or
      interrupts it indented by three columns at most. */
  predicate Stops(s: string, tags: Tags) {
    var line := s[..LineLength(s)];
    Blank(line) || (IndentColumns(line, 0) <= 3 && Interrupts(SkipBlanks(line), tags))
  }

  /** The lines of a paragraph from s on, without their indentation, and what comes
      after them. */
  function ParagraphLines(s: string, tags: Tags): (r: Reading)
    ensures |r.0| + |r.1| <= |s|
    decreases |s|
  {
    var k, w := LineLength(s), WholeLine(s);
    if k == |s| then (s, "")
    else if Stops(s[w..], tags) then (s[..k], s[k..])
    else
      var r := ParagraphLines(SkipBlanks(s[w..]), tags);
      (s[..w] + r.0, r.1)
  }

  /** The text of the paragraph that starts s, without blanks at its ends. */
  function ReadParagraph(s: string, tags: Tags): (r: Reading)
    ensures |r.0| + |r.1| <= |s|
  {
    var r := ParagraphLines(SkipBlanks(s), tags);
    (TrimRight(r.0, IsBlank), r.1)
  }

  /** Every later line goes on with the paragraph and is not indented. */
  predicate LinesStay(s: string, tags: Tags)
    decreases |s|
  {
    var later := s[WholeLine(s)..];
    LineLength(s) == |s| || (!Stops(later, tags) && !IsBlank(later[0]) && LinesStay(later, tags))
  }

  /** Every later line goes on with the paragraph. */
  predicate Uncut(s: string, tags: Tags)
    decreases |s|
  {
    var later := s[WholeLine(s)..];
    LineLength(s) == |s| || (!Stops(later, tags) && Uncut(SkipBlanks(later), tags))
  }

  /** The text without blanks at the start of its later lines. */
  function Unindented(s: string): (r: string)
    ensures |r| <= |s| && (r == "" <==> s == "")
    decreases |s|
  {
    if s == "" then ""
    else if EndsLine(s[0]) then s[..Ending(s)] + Unindented(SkipBlanks(s[Ending(s)..]))
    else [s[0]] + Unindented(s[1..])
  }

  lemma {:induction false} UnindentedLine(line: string, rest: string)
    requires OneLine(line)
    ensures Unindented(line + rest) == line + Unindented(rest)
  {
    if line == "" {
      assert line + rest == rest;
    } else {
      assert (line + rest)[1..] == line[1..] + rest;
      UnindentedLine(line[1..], rest);
    }
  }

  lemma CutTwice(s: string, k: nat, e: nat)
    requires k + e <= |s|
    ensures s == s[..k] + s[k..] && s[k..][e..] == s[k + e..] && s[..k] + s[k..][..e] == s[..k + e]
  {
  }

  lemma UnindentedEnding(s: string)
    requires s != "" && EndsLine(s[0])
    ensures Unindented(s) == s[..Ending(s)] + Unindented(SkipBlanks(s[Ending(s)..]))
  {
  }

  lemma UnindentedCut(s: string, k: nat, e: nat)
    requires k == LineLength(s) < |s| && e == Ending(s[k..])
    ensures Unindented(s) == s[..k + e] + Unindented(SkipBlanks(s[k + e..]))
  {
    CutTwice(s, k, e);
    UnindentedLine(s[..k], s[k..]);
    UnindentedEnding(s[k..]);
    Regroup(s[..k], s[k..][..e], Unindented(SkipBlanks(s[k + e..])));
  }

  lemma UnindentedStep(s: string)
    requires LineLength(s) < |s|
    ensures Unindented(s) == s[..WholeLine(s)] + Unindented(SkipBlanks(s[WholeLine(s)..]))
  {
    UnindentedCut(s, LineLength(s), Ending(s[LineLength(s)..]));
  }

  lemma OneLineStays(s: string)
    requires LineLength(s) == |s|
    ensures Unindented(s) == s
  {
    UnindentedLine(s, "");
    assert s + "" == s;
  }

  lemma TailChanges(p: string, s: string, tail: string)
    requires p <= s
    ensures p + tail == s <==> tail == s[|p|..]
  {
    assert s == p + s[|p|..];
  }

  /** Of a paragraph that is not cut, every line comes back as it is or shorter. */
  lemma {:induction false} UnindentedExactly(s: string, tags: Tags)
    requires Uncut(s, tags)
    ensures Unindented(s) == s <==> LinesStay(s, tags)
    ensures LinesStay(s, tags) || |Unindented(s)| < |s|
    decreases |s|
  {
    if LineLength(s) == |s| {
      OneLineStays(s);
    } else {
      var later := s[WholeLine(s)..];
      var tail := Unindented(SkipBlanks(later));
      UnindentedStep(s);
      UnindentedExactly(SkipBlanks(later), tags);
      TailChanges(s[..WholeLine(s)], s, tail);
      StopsOrStarts(later, tags);
      assert SkipBlanks(later) == later <==> !IsBlank(later[0]);
    }
  }

  lemma StopsOrStarts(s: string, tags: Tags)
    requires !Stops(s, tags)
    ensures s != "" && exists i | 0 <= i < LineLength(s) :: !IsBlank(s[i])
  {
    var line := s[..LineLength(s)];
    var i :| 0 <= i < |line| && !IsBlank(line[i]);
    assert !IsBlank(s[i]);
  }

  lemma {:induction false} OnlyUncutStays(s: string, tags: Tags)
    requires LinesStay(s, tags)
    ensures Uncut(s, tags)
    decreases |s|
  {
    if LineLength(s) < |s| { OnlyUncutStays(s[WholeLine(s)..], tags); }
  }

  /** A block ends where nothing follows, or a line ending and a line that stops it. */
  predicate BlockEnds(after: string, tags: Tags) {
    after == "" || (EndsLine(after[0]) && Stops(after[Ending(after)..], tags))
  }

  predicate LastIsOnLine(s: string) {
    s == "" || !EndsLine(s[|s| - 1])
  }

  lemma FirstLineOf(s: string, after: string)
    requires LastIsOnLine(s) && (after == "" || EndsLine(after[0]))
    ensures LineLength(s + after) == LineLength(s)
    ensures LineLength(s) < |s| ==> WholeLine(s + after) == WholeLine(s)
  {
    var k := LineLength(s);
    LineLengthIs(s + after, k);
    if k < |s| {
      assert (s + after)[k..] == s[k..] + after;
      assert k + 1 < |s| ==> (s[k..] + after)[1] == s[k + 1];
    }
  }

  lemma StopsAlike(s: string, after: string, tags: Tags)
    requires LastIsOnLine(s) && (after == "" || EndsLine(after[0]))
    ensures Stops(s + after, tags) <==> Stops(s, tags)
  {
    FirstLineOf(s, after);
    assert (s + after)[..LineLength(s)] == s[..LineLength(s)];
  }

  lemma BlanksBefore(s: string, after: string)
    requires exists i | 0 <= i < |s| :: !IsBlank(s[i])
    ensures SkipBlanks(s) != "" && SkipBlanks(s + after) == SkipBlanks(s) + after
  {
    var n := Leading(s, IsBlank);
    assert forall i | 0 <= i < n :: (s + after)[i] == s[i];
    assert (s + after)[n] == s[n];
    assert Leading(s + after, IsBlank) == n;
    assert (s + after)[n..] == s[n..] + after;
  }

  lemma NextLineStarts(s: string, after: string, tags: Tags)
    requires !Stops(s, tags) && LastIsOnLine(s)
    ensures var next := SkipBlanks(s);
            next != "" && LastIsOnLine(next) && SkipBlanks(s + after) == next + after
  {
    StopsOrStarts(s, tags);
    BlanksBefore(s, after);
  }

  /** The reader takes in the first line of several and goes on. */
  lemma FirstLineIsRead(s: string, after: string, tags: Tags)
    requires LastIsOnLine(s) && (after == "" || EndsLine(after[0])) && LineLength(s) < |s|
    requires !Stops(s[WholeLine(s)..], tags)
    ensures var next := SkipBlanks(s[WholeLine(s)..]);
            && next != "" && LastIsOnLine(next)
            && ParagraphLines(s + after, tags)
               == var r := ParagraphLines(next + after, tags); (s[..WholeLine(s)] + r.0, r.1)
  {
    var later := s[WholeLine(s)..];
    NextLineStarts(later, after, tags);
    FirstLineOf(s, after);
    CutAfter(s, after, WholeLine(s));
    StopsAlike(later, after, tags);
  }

  /** The reader stops at the second line. */
  lemma FirstLineIsAll(s: string, after: string, tags: Tags)
    requires LastIsOnLine(s) && (after == "" || EndsLine(after[0])) && LineLength(s) < |s|
    requires Stops(s[WholeLine(s)..], tags)
    ensures |ParagraphLines(s + after, tags).1| > |after|
  {
    FirstLineOf(s, after);
    CutAfter(s, after, LineLength(s));
    CutAfter(s, after, WholeLine(s));
    StopsAlike(s[WholeLine(s)..], after, tags);
  }

  lemma OnlyLineIsRead(s: string, after: string, tags: Tags)
    requires BlockEnds(after, tags) && LineLength(s) == |s|
    ensures ParagraphLines(s + after, tags) == (s, after)
  {
    LineOf(s, after);
    CutAfter(s, after, |s|);
    assert s[..|s|] == s && s[|s|..] + after == after;
    if after == "" { assert s + after == s; } else { EndOfBlock(s, after); }
  }

  /** The reader of a block takes in all its lines, unindented, or stops inside it. */
  lemma {:induction false} LinesAreRead(s: string, after: string, tags: Tags)
    requires LastIsOnLine(s) && BlockEnds(after, tags)
    ensures var r := ParagraphLines(s + after, tags);
            if Uncut(s, tags) then r == (Unindented(s), after) else |r.1| > |after|
    decreases |s|
  {
    var later := s[WholeLine(s)..];
    if LineLength(s) == |s| {
      OneLineStays(s);
      OnlyLineIsRead(s, after, tags);
    } else if Stops(later, tags) {
      FirstLineIsAll(s, after, tags);
    } else {
      FirstLineIsRead(s, after, tags);
      LinesAreRead(SkipBlanks(later), after, tags);
      UnindentedStep(s);
    }
  }

  lemma CutAfter(s: string, after: string, k: nat)
    requires k <= |s|
    ensures (s + after)[k..] == s[k..] + after && (s + after)[..k] == s[..k]
  {
  }

  lemma EndOfBlock(s: string, after: string)
    requires after != "" && EndsLine(after[0]) && LineLength(s) == |s|
    ensures WholeLine(s + after) == |s| + Ending(after)
    ensures (s + after)[WholeLine(s + after)..] == after[Ending(after)..]
  {
    LineLengthIs(s + after, |s|);
    assert (s + after)[|s|..] == after;
  }

  /** A paragraph without blanks at its ends whose later lines go on with it and are
      not indented. */
  predicate FitsParagraph(text: string, tags: Tags) {
    Tight(text) && LinesStay(text, tags)
  }

  lemma ParagraphIsRead(text: string, after: string, tags: Tags)
    requires text != "" && !EndsLine(text[0]) && !IsBlank(text[0]) && LastIsOnLine(text) && BlockEnds(after, tags)
    ensures var r := ReadParagraph(text + after, tags);
            if Uncut(text, tags) then r == (TrimRight(Unindented(text), IsBlank), after) else |r.1| > |after|
  {
    NothingToSkip(text, after);
    LinesAreRead(text, after, tags);
  }

  lemma NothingToSkip(text: string, after: string)
    requires text != "" && !IsBlank(text[0])
    ensures SkipBlanks(text + after) == text + after
  {
    var s := text + after;
    assert s[0] == text[0] && Leading(s, IsBlank) == 0;
  }

  lemma TrimmedExactly(text: string, tags: Tags)
    requires text != "" && !IsBlank(text[0]) && Uncut(text, tags)
    ensures TrimRight(Unindented(text), IsBlank) == text <==> FitsParagraph(text, tags)
  {
    UnindentedExactly(text, tags);
    var t := Unindented(text);
    if t == text && !IsBlank(text[|text| - 1]) {
      assert TrimRight(t, IsBlank) == t;
    }
  }

  lemma {:induction false} TrimRightBehind(p: string, s: string)
    requires s != "" && !IsBlank(s[0])
    ensures TrimRight(p + s, IsBlank) == p + TrimRight(s, IsBlank) && TrimRight(s, IsBlank) != ""
  {
    if IsBlank(s[|s| - 1]) {
      assert (p + s)[..|p + s| - 1] == p + s[..|s| - 1];
      TrimRightBehind(p, s[..|s| - 1]);
    }
  }

  /** No paragraph ends in a line ending. */
  lemma {:induction false} EndsOnLine(s: string, tags: Tags)
    requires s != "" && !IsBlank(s[0]) && !EndsLine(s[0])
    ensures var r := ParagraphLines(s, tags); r.0 != "" && r.0[0] == s[0] && LastIsOnLine(TrimRight(r.0, IsBlank))
    decreases |s|
  {
    var k, w := LineLength(s), WholeLine(s);
    if k == |s| {
      LineEndsOnLine(s, k);
      assert s[..k] == s;
    } else if Stops(s[w..], tags) {
      LineEndsOnLine(s, k);
    } else {
      var next := SkipBlanks(s[w..]);
      StopsOrStarts(s[w..], tags);
      NextStarts(s[w..]);
      EndsOnLine(next, tags);
      LaterEndsOnLine(s[..w], ParagraphLines(next, tags).0);
    }
  }

  lemma LineEndsOnLine(s: string, k: nat)
    requires 0 < k == LineLength(s)
    ensures var line := s[..k]; line != "" && line[0] == s[0] && LastIsOnLine(TrimRight(line, IsBlank))
  {
  }

  lemma LaterEndsOnLine(p: string, s: string)
    requires p != "" && s != "" && !IsBlank(s[0]) && LastIsOnLine(TrimRight(s, IsBlank))
    ensures p + s != "" && (p + s)[0] == p[0] && LastIsOnLine(TrimRight(p + s, IsBlank))
  {
    TrimRightBehind(p, s);
  }

  lemma NextStarts(s: string)
    requires exists i | 0 <= i < LineLength(s) :: !IsBlank(s[i])
    ensures var next := SkipBlanks(s); next != "" && !IsBlank(next[0]) && !EndsLine(next[0])
  {
    assert Leading(s, IsBlank) < LineLength(s);
  }

  lemma EndingIsCut(text: string, after: string, tags: Tags)
    requires text != "" && !EndsLine(text[0]) && !IsBlank(text[0]) && !LastIsOnLine(text)
    ensures ReadParagraph(text + after, tags).0 != text && !LinesStay(text, tags)
  {
    ReadEndsOnLine(text + after, tags) by {
      assert (text + after)[0] == text[0];
    }
    LastLineStops(text, tags);
  }

  lemma ReadEndsOnLine(s: string, tags: Tags)
    requires s != "" && !EndsLine(s[0]) && !IsBlank(s[0])
    ensures LastIsOnLine(ReadParagraph(s, tags).0)
  {
    assert Leading(s, IsBlank) == 0;
    EndsOnLine(s, tags);
  }

  lemma {:induction false} LastLineStops(s: string, tags: Tags)
    requires !LastIsOnLine(s)
    ensures !LinesStay(s, tags)
    decreases |s|
  {
    var later := s[WholeLine(s)..];
    if later != "" { LastLineStops(later, tags); }
  }

  /** A reader gets back exactly the text of a paragraph, and goes on behind it, if and
      only if the text fits one. */
  lemma ParagraphComesBackExactly(text: string, after: string, tags: Tags)
    requires text != "" && !EndsLine(text[0]) && BlockEnds(after, tags)
    ensures ReadParagraph(text + after, tags) == (text, after) <==> FitsParagraph(text, tags)
  {
    if IsBlank(text[0]) {
      assert (text + after)[0] == text[0];
      assert |SkipBlanks(text + after)| < |text + after|;
    } else if !LastIsOnLine(text) {
      EndingIsCut(text, after, tags);
    } else {
      ParagraphIsRead(text, after, tags);
      if Uncut(text, tags) {
        TrimmedExactly(text, tags);
      } else if LinesStay(text, tags) {
        OnlyUncutStays(text, tags);
      }
    }
  }

  // ------------------------------------------------- images as blocks (section 6.4)

  /** The text with a backslash before every special character. */
  function Backslashed(s: string, special: char -> bool): string {
    if s == "" then "" else (if special(s[0]) then ['\\', s[0]] else [s[0]]) + Backslashed(s[1..], special)
  }

  predicate TitleSpecial(c: char) {
    c == '\\' || c == '"'
  }

  lemma {:induction false} EscapesAreBackslashes(s: string)
    ensures EscapeText(s) == Backslashed(s, Special) && Escaped(Title, s) == Backslashed(s, TitleSpecial)
  {
    if s != "" { EscapesAreBackslashes(s[1..]); }
  }

  predicate KeepsLines(special: char -> bool) {
    forall c | special(c) :: !IsBlank(c) && !EndsLine(c)
  }

  lemma {:induction false} BlanksStay(s: string, special: char -> bool)
    requires KeepsLines(special)
    ensures SkipBlanks(Backslashed(s, special)) == Backslashed(SkipBlanks(s), special)
  {
    if s != "" && IsBlank(s[0]) {
      BlanksStay(s[1..], special);
      BlankSkipped(s[0], Backslashed(s[1..], special));
      BlankSkipped(s[0], s[1..]);
      assert s == [s[0]] + s[1..];
    } else if s != "" {
      assert !IsBlank(Backslashed(s, special)[0]);
    }
  }

  lemma BlankSkipped(c: char, s: string)
    requires IsBlank(c)
    ensures SkipBlanks([c] + s) == SkipBlanks(s)
  {
    assert ([c] + s)[1..] == s;
  }

  lemma EndingIsKept(s: string, special: char -> bool)
    requires KeepsLines(special) && s != "" && EndsLine(s[0])
    ensures var b, n := Backslashed(s, special), Ending(s);
            b != "" && b[0] == s[0] && Ending(b) == n && b[..n] == s[..n] && b[n..] == Backslashed(s[n..], special)
  {
    var b, tail := Backslashed(s, special), Backslashed(s[1..], special);
    assert b == [s[0]] + tail && b[1..] == tail;
    if |s| > 1 {
      assert s[1..][1..] == s[2..];
      assert tail[0] == if special(s[1]) then '\\' else s[1];
    }
  }

  lemma {:induction false} BackslashedConcat(a: string, b: string, special: char -> bool)
    ensures Backslashed(a + b, special) == Backslashed(a, special) + Backslashed(b, special)
  {
    if a == "" {
      assert a + b == b;
    } else {
      assert (a + b)[1..] == a[1..] + b;
      BackslashedConcat(a[1..], b, special);
      Regroup(if special(a[0]) then ['\\', a[0]] else [a[0]], Backslashed(a[1..], special), Backslashed(b, special));
    }
  }

  lemma EndingIsBackslashed(s: string, rest: string, special: char -> bool)
    requires KeepsLines(special) && s != "" && EndsLine(s[0])
    ensures Backslashed(s[..Ending(s)] + rest, special) == s[..Ending(s)] + Backslashed(rest, special)
  {
    var e := s[..Ending(s)];
    BackslashedConcat(e, rest, special);
    if |e| == 2 {
      assert e[1..][1..] == "";
      assert Backslashed(e[1..], special) == [e[1]];
    }
    assert Backslashed(e, special) == e;
  }

  /** Lines lose their indentation before or after they are escaped alike. */
  lemma {:induction false} UnindentedBackslashed(s: string, special: char -> bool)
    requires KeepsLines(special)
    ensures Unindented(Backslashed(s, special)) == Backslashed(Unindented(s), special)
    decreases |s|
  {
    if s == "" {
    } else if EndsLine(s[0]) {
      var n := Ending(s);
      EndingIsKept(s, special);
      BlanksStay(s[n..], special);
      UnindentedBackslashed(SkipBlanks(s[n..]), special);
      EndingIsBackslashed(s, Unindented(SkipBlanks(s[n..])), special);
    } else {
      var piece := if special(s[0]) then ['\\', s[0]] else [s[0]];
      UnindentedBackslashed(s[1..], special);
      UnindentedLine(piece, Backslashed(s[1..], special));
      assert ([s[0]] + Unindented(s[1..]))[1..] == Unindented(s[1..]);
    }
  }

  lemma {:induction false} UnindentedConcat(a: string, b: string)
    requires b != "" && !IsBlank(b[0]) && !EndsLine(b[0])
    ensures Unindented(a + b) == Unindented(a) + Unindented(b)
    decreases |a|
  {
    if a == "" {
      assert a + b == b;
    } else if EndsLine(a[0]) {
      var n := Ending(a);
      EndingAhead(a, b);
      BlanksAhead(a[n..], b);
      UnindentedConcat(SkipBlanks(a[n..]), b);
      Regroup(a[..n], Unindented(SkipBlanks(a[n..])), Unindented(b));
    } else {
      assert (a + b)[1..] == a[1..] + b;
      UnindentedConcat(a[1..], b);
      Regroup([a[0]], Unindented(a[1..]), Unindented(b));
    }
  }

  lemma EndingAhead(a: string, b: string)
    requires a != "" && EndsLine(a[0]) && b != "" && !EndsLine(b[0])
    ensures var n := Ending(a);
            Ending(a + b) == n && (a + b)[..n] == a[..n] && (a + b)[n..] == a[n..] + b
  {
    assert |a| == 1 ==> (a + b)[1] == b[0];
  }

  lemma BlanksAhead(a: string, b: string)
    requires b != "" && !IsBlank(b[0])
    ensures SkipBlanks(a + b) == SkipBlanks(a) + b
  {
    var n := Leading(a, IsBlank);
    assert forall i | 0 <= i < n :: (a + b)[i] == a[i];
    assert (a + b)[n] == if n < |a| then a[n] else b[0];
    assert Leading(a + b, IsBlank) == n;
    assert (a + b)[n..] == a[n..] + b;
  }

  lemma {:induction false} DestinationStaysOnLine(dest: string)
    ensures OneLine(Escaped(Destination, dest))
  {
    if dest != "" {
      DestinationStaysOnLine(dest[1..]);
    }
  }

  lemma DestinationIsOneLine(dest: string)
    ensures OneLine(MdDestination(dest))
  {
    DestinationStaysOnLine(dest);
    if !NeedsBrackets(dest) {
      forall i | 0 <= i < |dest| ensures !EndsLine(dest[i]) {
        assert dest[i] in dest;
        assert '\n' in " \t\n\r()<>" && '\r' in " \t\n\r()<>";
      }
    }
  }

  lemma TitleParts(e: string)
    ensures " " + ("\"" + e + "\"") + ")" == " \"" + (e + "\")")
  {
  }

  lemma UnindentedQuoted(e: string)
    ensures Unindented(" \"" + (e + "\")")) == " \"" + (Unindented(e) + "\")")
  {
    UnindentedLine(" \"", e + "\")");
    UnindentedConcat(e, "\")");
    OneLineStays("\")");
  }

  lemma UnindentedTitle(title: string)
    ensures Unindented(TitlePart(title) + ")") == TitlePart(Unindented(title)) + ")"
  {
    if title == "" {
      OneLineStays(")");
      assert TitlePart(title) + ")" == ")";
    } else {
      EscapesAreBackslashes(title);
      EscapesAreBackslashes(Unindented(title));
      UnindentedBackslashed(title, TitleSpecial);
      TitleParts(Escaped(Title, title));
      TitleParts(Escaped(Title, Unindented(title)));
      UnindentedQuoted(Escaped(Title, title));
    }
  }

  lemma PictureParts(inner: string, dest: string, part: string)
    ensures "![" + inner + "](" + (dest + part + ")") == "![" + (inner + ("](" + dest + (part + ")")))
  {
  }

  lemma UnindentedPicture(inner: string, dest: string, part: string)
    requires OneLine(dest)
    ensures Unindented("![" + (inner + ("](" + dest + (part + ")"))))
         == "![" + (Unindented(inner) + ("](" + dest + Unindented(part + ")")))
  {
    var behind := "](" + dest + (part + ")");
    assert behind[0] == ']';
    UnindentedLine("![", inner + behind);
    UnindentedConcat(inner, behind);
    UnindentedLine("](" + dest, part + ")");
  }

  /** A reader finds the image of the unindented texts. */
  lemma UnindentedImage(alt: string, src: string, title: string)
    ensures Unindented(ImageOf(alt, src, title)) == ImageOf(Unindented(alt), src, Unindented(title))
  {
    EscapesAreBackslashes(alt);
    EscapesAreBackslashes(Unindented(alt));
    UnindentedBackslashed(alt, Special);
    DestinationIsOneLine(src);
    UnindentedTitle(title);
    UnindentedPicture(EscapeText(alt), MdDestination(src), TitlePart(title));
    PictureParts(EscapeText(alt), MdDestination(src), TitlePart(title));
    PictureParts(EscapeText(Unindented(alt)), MdDestination(src), TitlePart(Unindented(title)));
  }

  /** The paragraph that starts s when it is one image and nothing else, and what comes
      after it. */
  function ReadBlockImage(s: string, names: Names, tags: Tags): Option<(Picture, string)> {
    var (text, after) := ReadParagraph(s, tags);
    match ReadImage(text, names)
    case None => None
    case Some(picture) => if picture.target.rest == "" then Some((picture, after)) else None
  }

  lemma ImageEnds(alt: string, src: string, title: string)
    ensures var s := ImageOf(alt, src, title); s != "" && s[0] == '!' && s[|s| - 1] == ')'
  {
  }

  /** An image that loses indentation is read as another one. */
  lemma ShorterImageIsAnother(alt: string, src: string, title: string, names: Names)
    requires Sensible(names)
    requires Unindented(alt) != alt || Unindented(title) != title
    ensures ReadImage(ImageOf(Unindented(alt), src, Unindented(title)), names)
         != Some(Picture(alt, Target(src, title, "")))
  {
    var alt', title' := Unindented(alt), Unindented(title);
    var s := ImageOf(alt', src, title');
    assert s + "" == s;
    ImageComesBackExactly(alt', src, title', "", names);
    if alt' == alt {
      UnindentedShortens(title);
      ImageIsTarget(alt', src, title', "", names);
      LongerTitleIsNotRead(src, title', title, "", names);
    }
  }

  lemma {:induction false} UnindentedShortens(s: string)
    ensures Unindented(s) == s || |Unindented(s)| < |s|
    decreases |s|
  {
    if s != "" {
      var n := if EndsLine(s[0]) then Ending(s) else 1;
      assert s == s[..n] + s[n..];
      UnindentedShortens(if EndsLine(s[0]) then SkipBlanks(s[n..]) else s[1..]);
    }
  }

  lemma NothingToTrim(s: string)
    requires s != "" && !IsBlank(s[|s| - 1])
    ensures TrimRight(s, IsBlank) == s
  {
  }

  lemma ImageParagraph(alt: string, src: string, title: string, after: string, tags: Tags)
    requires BlockEnds(after, tags)
    ensures var s := ImageOf(alt, src, title); var r := ReadParagraph(s + after, tags);
            if Uncut(s, tags) then r == (ImageOf(Unindented(alt), src, Unindented(title)), after)
            else |r.1| > |after|
  {
    ImageEnds(alt, src, title);
    ImageEnds(Unindented(alt), src, Unindented(title));
    NothingToTrim(ImageOf(Unindented(alt), src, Unindented(title)));
    UnindentedImage(alt, src, title);
    ParagraphIsRead(ImageOf(alt, src, title), after, tags);
  }

  lemma UncutImage(alt: string, src: string, title: string, names: Names, tags: Tags)
    requires Sensible(names) && Uncut(ImageOf(alt, src, title), tags)
    ensures ReadImage(ImageOf(Unindented(alt), src, Unindented(title)), names)
         == Some(Picture(alt, Target(src, title, "")))
       <==> TargetFits(src, title, names) && LinesStay(ImageOf(alt, src, title), tags)
  {
    var s := ImageOf(alt, src, title);
    UnindentedExactly(s, tags);
    UnindentedImage(alt, src, title);
    if LinesStay(s, tags) {
      assert s + "" == s;
      ImageComesBackExactly(alt, src, title, "", names);
    } else {
      ShorterImageIsAnother(alt, src, title, names);
    }
  }

  /** A reader gets an image that stands as a block back, and goes on behind it, if and
      only if it can take the target, and no later line of the markdown is indented, is
      blank or starts a block. */
  lemma BlockImageComesBackExactly(
      alt: string, src: string, title: string, after: string, names: Names, tags: Tags)
    requires Sensible(names) && BlockEnds(after, tags)
    ensures ReadBlockImage(ImageOf(alt, src, title) + after, names, tags)
         == Some((Picture(alt, Target(src, title, "")), after))
       <==> TargetFits(src, title, names) && LinesStay(ImageOf(alt, src, title), tags)
  {
    var s := ImageOf(alt, src, title);
    ImageParagraph(alt, src, title, after, tags);
    if Uncut(s, tags) {
      UncutImage(alt, src, title, names, tags);
    } else if LinesStay(s, tags) {
      OnlyUncutStays(s, tags);
    }
  }

  lemma LaterLineStops(line: string, later: string, tags: Tags)
    requires OneLine(line) && Stops(later, tags)
    ensures !LinesStay(line + ("\n" + later), tags)
  {
    var s := line + ("\n" + later);
    LineLengthIs(s, |line|);
    assert s[|line|..] == "\n" + later && Ending("\n" + later) == 1;
    assert s[|line| + 1..] == later;
  }

  lemma DashStops(s: string, tags: Tags)
    requires |s| > 2 && s[0] == '-' && s[1] == ' ' && s[2] == 'b' && OneLine(s)
    ensures Stops(s, tags)
  {
    assert s[..|s|] == s && Leading(s, IsBlank) == 0;
    assert s[1..][1] == 'b';
  }

  lemma TwoLines(dest: string, first: string, second: string)
    ensures " " + ("\"" + (first + ("\n" + second)) + "\"") == " \"" + first + ("\n" + (second + "\""))
    ensures "](" + dest + (" \"" + first + ("\n" + (second + "\"")) + ")")
         == "](" + dest + " \"" + first + ("\n" + (second + "\")"))
  {
  }

  lemma LinesInRow(a: string, b: string)
    requires OneLine(a) && OneLine(b)
    ensures OneLine(a + b)
  {
  }

  lemma TwoLineImage(src: string, title: string, first: string, second: string)
    requires title == first + ("\n" + second) && '"' !in title && '\\' !in title && OneLine(first)
    ensures var line := "![" + ("](" + MdDestination(src) + " \"" + first);
            OneLine(line) && ImageOf("", src, title) == line + ("\n" + (second + "\")"))
  {
    var dest := MdDestination(src);
    PlainTitle(title);
    DestinationIsOneLine(src);
    LinesInRow("](", dest);
    LinesInRow("](" + dest, " \"");
    LinesInRow("](" + dest + " \"", first);
    LinesInRow("![", "](" + dest + " \"" + first);
    PictureParts("", dest, TitlePart(title));
    TwoLines(dest, first, second);
    assert "" + ("](" + dest + (TitlePart(title) + ")")) == "](" + dest + (TitlePart(title) + ")");
    Regroup("![", "](" + dest + " \"" + first, "\n" + (second + "\")"));
  }

  /** So a title of two lines of which the second starts a list is cut off, although as
      part of a paragraph, where its line starts are escaped, it is not. */
  lemma ListInTitleCuts(src: string, title: string, after: string, names: Names, tags: Tags)
    requires title == "a\n- b" && Sensible(names) && BlockEnds(after, tags)
    ensures ReadBlockImage(ImageOf("", src, title) + after, names, tags)
         != Some((Picture("", Target(src, title, "")), after))
  {
    var line := "![" + ("](" + MdDestination(src) + " \"" + "a");
    var later := "- b" + "\")";
    assert title == "a" + ("\n" + "- b");
    TwoLineImage(src, title, "a", "- b");
    DashStops(later, tags);
    LaterLineStops(line, later, tags);
    BlockImageComesBackExactly("", src, title, after, names, tags);
  }

  // ------------------------------------------------ ordinary text as a paragraph

  /** Both start alike, as to blanks and line endings, and end in the same character. */
  predicate SameEdges(a: string, b: string) {
    && (a == "" <==> b == "")
    && (a != "" ==>
          && (IsBlank(a[0]) <==> IsBlank(b[0])) && (EndsLine(a[0]) <==> EndsLine(b[0]))
          && a[|a| - 1] == b[|b| - 1])
  }

  lemma {:induction false} EscapeKeepsEdges(s: string)
    ensures SameEdges(EscapeText(s), s)
  {
    if s != "" {
      var piece := if Special(s[0]) then ['\\', s[0]] else [s[0]];
      EscapeKeepsEdges(s[1..]);
      assert EscapeText(s) == piece + EscapeText(s[1..]);
    }
  }

  lemma LineStartKeepsEdges(line: string)
    ensures SameEdges(EscapeLineStart(line), line)
  {
    if MarkerAt(line) != -1 { MarkerIsPunctuation(line); }
  }

  lemma {:induction false} LineStartsKeepEdges(lines: seq<string>)
    requires lines != []
    ensures SameEdges(Join(EscapeLines(lines), "\n"), Join(lines, "\n"))
  {
    LineStartKeepsEdges(lines[0]);
    if |lines| > 1 {
      LineStartsKeepEdges(lines[1..]);
      assert EscapeLines(lines)[1..] == EscapeLines(lines[1..]);
      EdgesJoin(EscapeLineStart(lines[0]), lines[0], Join(EscapeLines(lines[1..]), "\n"), Join(lines[1..], "\n"));
    }
  }

  lemma EdgesJoin(a: string, b: string, c: string, d: string)
    requires SameEdges(a, b) && SameEdges(c, d)
    ensures SameEdges(a + "\n" + c, b + "\n" + d)
  {
    var s, t := a + "\n" + c, b + "\n" + d;
    assert s[0] == (if a == "" then '\n' else a[0]) && t[0] == if b == "" then '\n' else b[0];
    assert s[|s| - 1] == if c == "" then '\n' else c[|c| - 1];
    assert t[|t| - 1] == if d == "" then '\n' else d[|d| - 1];
  }

  lemma SplitBehind(c: char, s: string)
    requires c != '\n'
    ensures var rest := Split(s, '\n'); Split([c] + s, '\n') == [[c] + rest[0]] + rest[1..]
  {
    assert ([c] + s)[1..] == s;
  }

  lemma EscapedPiece(c: char, s: string)
    ensures EscapeText([c] + s) == (if Special(c) then ['\\'] + ([c] + EscapeText(s)) else [c] + EscapeText(s))
  {
    assert ([c] + s)[1..] == s;
  }

  /** The lines of escaped text are the escaped lines of the text. */
  lemma {:induction false} EscapedSplit(s: string, i: nat)
    requires i < |Split(s, '\n')|
    ensures |Split(EscapeText(s), '\n')| == |Split(s, '\n')|
    ensures Split(EscapeText(s), '\n')[i] == EscapeText(Split(s, '\n')[i])
  {
    if s != "" {
      var c, t := s[0], s[1..];
      assert s == [c] + t;
      EscapedPiece(c, t);
      if c == '\n' {
        assert ([c] + EscapeText(t))[1..] == EscapeText(t);
        EscapedSplit(t, if i == 0 then 0 else i - 1);
      } else {
        EscapedSplit(t, i);
        SplitBehind(c, t);
        SplitBehind(c, EscapeText(t));
        if Special(c) { SplitBehind('\\', [c] + EscapeText(t)); }
        EscapedPiece(c, Split(t, '\n')[0]);
      }
    }
  }

  lemma {:induction false} PartHasNone(s: string, c: char, i: nat)
    requires c !in s && i < |Split(s, '\n')|
    ensures c !in Split(s, '\n')[i]
  {
    if s != "" {
      assert forall d | d in s[1..] :: d in s;
      if s[0] == '\n' {
        if i > 0 { PartHasNone(s[1..], c, i - 1); }
      } else {
        PartHasNone(s[1..], c, i);
      }
    }
  }

  lemma {:induction false} EscapeStaysOnLine(s: string)
    requires OneLine(s)
    ensures OneLine(EscapeText(s))
  {
    if s != "" {
      assert forall i | 0 <= i < |s| - 1 :: s[1..][i] == s[i + 1];
      EscapeStaysOnLine(s[1..]);
    }
  }

  /** The line goes on with a paragraph, without indentation. */
  predicate GoesOn(line: string, tags: Tags) {
    !Stops(line, tags) && line != "" && !IsBlank(line[0])
  }

  lemma NextLine(line: string, rest: string)
    requires OneLine(line)
    ensures var s := line + "\n" + rest;
            LineLength(s) == |line| && WholeLine(s) == |line| + 1 && s[|line| + 1..] == rest
  {
    var s := line + "\n" + rest;
    LineLengthIs(s, |line|);
    assert s[|line|..] == "\n" + rest;
  }

  lemma {:induction false} JoinedLinesStay(lines: seq<string>, tags: Tags)
    requires lines != [] && forall i | 0 <= i < |lines| :: OneLine(lines[i])
    ensures LinesStay(Join(lines, "\n"), tags) <==> forall i | 1 <= i < |lines| :: GoesOn(lines[i], tags)
  {
    if |lines| == 1 {
      LineOf(lines[0], "");
      assert lines[0] + "" == lines[0];
    } else {
      var later := lines[1..];
      var rest := Join(later, "\n");
      JoinedLinesStay(later, tags);
      NextLine(lines[0], rest);
      FirstOfJoin(later, tags);
      assert forall i | 2 <= i < |lines| :: lines[i] == later[i - 1];
      assert forall i | 1 <= i < |later| :: later[i] == lines[i + 1];
    }
  }

  lemma FirstOfJoin(lines: seq<string>, tags: Tags)
    requires lines != [] && OneLine(lines[0])
    ensures var s := Join(lines, "\n");
            GoesOn(lines[0], tags) <==> !Stops(s, tags) && s != "" && !IsBlank(s[0])
  {
    var line := lines[0];
    var tail := if |lines| == 1 then "" else "\n" + Join(lines[1..], "\n");
    assert Join(lines, "\n") == line + tail;
    StopsAlike(line, tail, tags);
    if line == "" { assert Stops(line, tags); }
  }

  lemma InterruptingOpens(s: string, tags: Tags)
    requires Interrupts(s, tags)
    ensures Opens(s)
  {
    if ListStarts(s) && !ContainerStarts(s) {
      assert OrderedStarts(s) by {
        var d: int := MarkerWidth(s) - 1;
        assert 1 <= d <= 9 && d < |s| && EndsAt(s, d + 1);
      }
    }
  }

  lemma GuardedGoesOn(line: string, tags: Tags)
    requires OneLine(line) && !StartsBlock(line)
    ensures GoesOn(line, tags) <==> line != "" && !IsBlank(line[0])
  {
    if line != "" && !IsBlank(line[0]) {
      LineOf(line, "");
      assert line + "" == line && line[..|line|] == line;
      assert Leading(line, IsBlank) == 0 && Indent(line) == 0;
      if Interrupts(line, tags) { InterruptingOpens(line, tags); }
    }
  }

  /** No later line is blank or indented. */
  predicate LinesStandOut(s: string) {
    var lines := Split(s, '\n');
    forall i | 1 <= i < |lines| :: lines[i] != "" && !IsBlank(lines[i][0])
  }

  lemma EscapedPart(s: string, i: nat)
    requires '\r' !in s && i < |Split(s, '\n')|
    ensures var line := Split(s, '\n')[i]; OneLine(EscapeText(line)) && SameEdges(EscapeText(line), line)
  {
    var line := Split(s, '\n')[i];
    PartHasNone(s, '\r', i);
    SplitHasNoSep(s, '\n', i);
    assert OneLine(line);
    EscapeStaysOnLine(line);
    EscapeKeepsEdges(line);
  }

  lemma LineStartStaysOnLine(line: string)
    requires OneLine(line)
    ensures OneLine(EscapeLineStart(line))
  {
    var at := MarkerAt(line);
    if at != -1 { InsertStaysOnLine(line, at); }
  }

  lemma InsertStaysOnLine(line: string, at: nat)
    requires OneLine(line) && at <= |line|
    ensures OneLine(line[..at] + "\\" + line[at..])
  {
    var e := line[..at] + "\\" + line[at..];
    forall i | 0 <= i < |e| ensures !EndsLine(e[i]) {
      if i < at {
        assert e[i] == line[i];
      } else if i > at {
        assert e[i] == line[i - 1];
      }
    }
  }

  lemma GuardedLine(s: string, i: nat)
    requires '\r' !in s && i < |Split(s, '\n')|
    ensures var guarded := Split(LineStartsEscaped(EscapeText(s)), '\n');
            && |guarded| == |Split(s, '\n')| && OneLine(guarded[i]) && !StartsBlock(guarded[i])
            && SameEdges(guarded[i], Split(s, '\n')[i])
  {
    EscapedSplit(s, i);
    EscapedLines(EscapeText(s));
    EscapedPart(s, i);
    LineStartStaysOnLine(Split(EscapeText(s), '\n')[i]);
    LineStartKeepsEdges(Split(EscapeText(s), '\n')[i]);
    OrdinaryTextStaysOrdinary(s);
  }

  lemma GuardedStays(s: string, tags: Tags)
    requires '\r' !in s
    ensures LinesStay(LineStartsEscaped(EscapeText(s)), tags) <==> LinesStandOut(s)
  {
    var guarded := LineStartsEscaped(EscapeText(s));
    var lines, parts := Split(guarded, '\n'), Split(s, '\n');
    GuardedLine(s, 0);
    forall i | 0 <= i < |parts|
      ensures OneLine(lines[i]) && (GoesOn(lines[i], tags) <==> parts[i] != "" && !IsBlank(parts[i][0]))
    {
      GuardedLine(s, i);
      GuardedGoesOn(lines[i], tags);
    }
    JoinSplit(guarded, '\n');
    JoinedLinesStay(lines, tags);
  }

  lemma GuardedKeepsEdges(s: string)
    ensures SameEdges(LineStartsEscaped(EscapeText(s)), s)
  {
    EscapeKeepsEdges(s);
    JoinSplit(EscapeText(s), '\n');
    LineStartsKeepEdges(Split(EscapeText(s), '\n'));
  }

  /** A paragraph of ordinary text: none of its lines is taken for a block, and a reader
      gets it back if and only if it has no blank at its ends and no later line of it is
      blank or indented. */
  lemma OrdinaryParagraphComesBackExactly(s: string, after: string, names: Names, tags: Tags)
    requires s != "" && s[0] != '\n' && '\r' !in s && BlockEnds(after, tags)
    ensures var guarded := LineStartsEscaped(EscapeText(s));
            && (ReadParagraph(guarded + after, tags) == (guarded, after) <==> Tight(s) && LinesStandOut(s))
            && Read(guarded, names) == s
  {
    var guarded := LineStartsEscaped(EscapeText(s));
    OrdinaryTextReadsBack(s, names);
    GuardedKeepsEdges(s);
    GuardedStays(s, tags);
    ParagraphComesBackExactly(guarded, after, tags);
  }
}
