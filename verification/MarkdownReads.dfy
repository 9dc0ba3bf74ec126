/** What a reader of markdown makes of a rendered node: the blocks of a document come
    back each as what it was, and one after the other. */
module MarkdownReads {
  import opened Wrappers
  import opened Body
  import opened Text
  import opened Lines
  import opened Escapes
  import opened References
  import opened Headings
  import opened Containers
  import opened Links
  import opened Paragraphs
  import opened CodeMarkup
  import opened Markdown

  // --------------------------------------------------------------- plain runs

  /** A run no mark of which has a form in markdown. */
  predicate Plain(n: Node) {
    n.typ == TextRun && forall i | 0 <= i < |n.marks| :: n.marks[i].typ == Underline || n.marks[i].typ.OtherMark?
  }

  predicate AllPlain(nodes: seq<Node>) {
    forall i | 0 <= i < |nodes| :: Plain(nodes[i])
  }

  /** The text of the runs, one after the other. */
  function RunText(nodes: seq<Node>): string {
    if nodes == [] then "" else nodes[0].text + RunText(nodes[1..])
  }

  lemma {:induction false} NoLink(marks: seq<Mark>)
    requires forall i | 0 <= i < |marks| :: marks[i].typ != Link
    ensures LinkHref(marks) == ""
  {
    if marks != [] { NoLink(marks[1..]); }
  }

  lemma PlainIsEscaped(n: Node)
    requires Plain(n)
    ensures MdText(n) == EscapeText(n.text)
  {
    NoLink(n.marks);
    assert !HasMark(n, Bold) && !HasMark(n, Italic) && !HasMark(n, Strike) && !HasMark(n, Code);
  }

  lemma {:induction false} EscapeConcat(a: string, b: string)
    ensures EscapeText(a + b) == EscapeText(a) + EscapeText(b)
  {
    if a == "" {
      assert a + b == b;
    } else {
      assert (a + b)[1..] == a[1..] + b;
      EscapeConcat(a[1..], b);
      Regroup(if Special(a[0]) then ['\\', a[0]] else [a[0]], EscapeText(a[1..]), EscapeText(b));
    }
  }

  lemma {:induction false} PlainPieces(nodes: seq<Node>, br: string)
    requires AllPlain(nodes)
    ensures MdPieces(nodes, br) == EscapeText(RunText(nodes))
  {
    if nodes != [] {
      PlainIsEscaped(nodes[0]);
      PlainPieces(nodes[1..], br);
      EscapeConcat(nodes[0].text, RunText(nodes[1..]));
    }
  }

  lemma {:induction false} RunTextConcat(a: seq<Node>, b: seq<Node>)
    ensures RunText(a + b) == RunText(a) + RunText(b)
  {
    if a == [] {
      assert a + b == b;
    } else {
      assert (a + b)[1..] == a[1..] + b;
      RunTextConcat(a[1..], b);
    }
  }

  lemma RunTextOfOne(n: Node)
    ensures RunText([n]) == n.text
  {
    assert [n][1..] == [];
  }

  lemma MergeIntoPlain(out: seq<Node>, n: Node)
    requires AllPlain(out) && Plain(n)
    ensures AllPlain(MergeInto(out, n)) && RunText(MergeInto(out, n)) == RunText(out) + n.text
  {
    if out != [] && SameRun(out[|out| - 1], n) {
      var init, last := out[..|out| - 1], out[|out| - 1];
      var joined := last.(text := last.text + n.text);
      assert out == init + [last];
      assert Plain(joined);
      RunTextConcat(init, [last]);
      RunTextConcat(init, [joined]);
      RunTextOfOne(last);
      RunTextOfOne(joined);
    } else {
      RunTextConcat(out, [n]);
      RunTextOfOne(n);
    }
  }

  lemma {:induction false} MergedPlain(nodes: seq<Node>)
    requires AllPlain(nodes)
    ensures AllPlain(Merged(nodes)) && RunText(Merged(nodes)) == RunText(nodes)
  {
    if nodes != [] {
      var init, last := nodes[..|nodes| - 1], nodes[|nodes| - 1];
      MergedPlain(init);
      MergeIntoPlain(Merged(init), last);
      LastRun(nodes);
    }
  }

  lemma LastRun(nodes: seq<Node>)
    requires nodes != []
    ensures RunText(nodes) == RunText(nodes[..|nodes| - 1]) + nodes[|nodes| - 1].text
  {
    var init, last := nodes[..|nodes| - 1], nodes[|nodes| - 1];
    assert nodes == init + [last];
    RunTextConcat(init, [last]);
    RunTextOfOne(last);
  }

  /** Plain runs are written as their text, escaped, whatever runs it is cut into. */
  lemma PlainInlineIsEscaped(nodes: seq<Node>, br: string)
    requires AllPlain(nodes)
    ensures MdInline(nodes, br) == EscapeText(RunText(nodes))
  {
    MergedPlain(nodes);
    PlainPieces(Merged(nodes), br);
  }

  // ------------------------------------------------------- the blocks of a node

  /** Nothing in the block starts a block of another kind. */
  predicate StartsNoBlock(s: string) {
    forall line | line in Split(s, '\n') :: !StartsBlock(line)
  }

  lemma PlainBlock(n: Node)
    requires (n.typ == Paragraph && AllPlain(n.content)) || Plain(n)
    ensures MdBlock(n) == LineStartsEscaped(EscapeText(if n.typ == Paragraph then RunText(n.content) else n.text))
  {
    if n.typ == Paragraph {
      ParagraphBlock(n);
      PlainInlineIsEscaped(n.content, "\\\n");
    } else {
      RunBlock(n);
      PlainIsEscaped(n);
    }
  }

  /** A paragraph of plain runs, or a plain run standing by itself, is read as a paragraph
      of their text, and of nothing else, if and only if the text has no blank at its ends
      and no later line of it is blank or indented. */
  lemma ParagraphReadsBack(n: Node, after: string, names: Names, tags: Tags)
    requires (n.typ == Paragraph && AllPlain(n.content)) || Plain(n)
    requires BlockEnds(after, tags)
    requires var s := if n.typ == Paragraph then RunText(n.content) else n.text;
             s != "" && s[0] != '\n' && '\r' !in s
    ensures var s := if n.typ == Paragraph then RunText(n.content) else n.text;
            && (ReadParagraph(MdBlock(n) + after, tags) == (MdBlock(n), after) <==> Tight(s) && LinesStandOut(s))
            && Read(MdBlock(n), names) == s && StartsNoBlock(MdBlock(n))
  {
    var s := if n.typ == Paragraph then RunText(n.content) else n.text;
    PlainBlock(n);
    OrdinaryParagraphComesBackExactly(s, after, names, tags);
    OrdinaryTextStaysOrdinary(s);
  }

  lemma HashEnds(s: string, hashes: string)
    requires Hashy(hashes) && (s != "" ==> s[|s| - 1] != '#')
    ensures TrimRight(s + hashes, IsHash) == s
    decreases |hashes|
  {
    if hashes == "" {
      assert s + hashes == s;
    } else {
      var front := hashes[..|hashes| - 1];
      assert (s + hashes)[..|s + hashes| - 1] == s + front;
      HashEnds(s, front);
    }
  }

  lemma {:induction false} HashesStay(hashes: string)
    requires Hashy(hashes)
    ensures EscapeText(hashes) == hashes
  {
    if hashes != "" { HashesStay(hashes[1..]); }
  }

  /** Escaping touches no hash, so it makes and unmakes no closing sequence. */
  lemma ClosingStays(s: string)
    ensures HasClosing(EscapeText(s)) <==> HasClosing(s)
  {
    var t, hashes := CutHashes(s);
    EscapeConcat(t, hashes);
    HashesStay(hashes);
    EscapeKeepsEdges(t);
    ClosingOf(t, hashes);
    ClosingOf(EscapeText(t), hashes);
  }

  predicate Hashy(s: string) {
    forall i | 0 <= i < |s| :: s[i] == '#'
  }

  lemma CutHashes(s: string) returns (t: string, hashes: string)
    ensures s == t + hashes && Hashy(hashes) && (t != "" ==> t[|t| - 1] != '#')
  {
    t := TrimRight(s, IsHash);
    hashes := s[|t|..];
    forall i | 0 <= i < |hashes| ensures hashes[i] == '#' {
      assert IsHash(s[|t| + i]);
    }
  }

  lemma ClosingOf(t: string, hashes: string)
    requires Hashy(hashes) && (t != "" ==> t[|t| - 1] != '#')
    ensures HasClosing(t + hashes) <==> hashes != "" && (t == "" || IsBlank(t[|t| - 1]))
  {
    HashEnds(t, hashes);
  }

  lemma {:induction false} EscapeKeepsLine(s: string)
    ensures OneLine(EscapeText(s)) <==> OneLine(s)
  {
    if s != "" {
      var tail := EscapeText(s[1..]);
      EscapeKeepsLine(s[1..]);
      assert forall i | 0 <= i < |s| - 1 :: s[1..][i] == s[i + 1];
      var piece := if Special(s[0]) then ['\\', s[0]] else [s[0]];
      assert EscapeText(s) == piece + tail;
      assert forall i | 0 <= i < |tail| :: (piece + tail)[|piece| + i] == tail[i];
      assert (piece + tail)[|piece| - 1] == s[0];
    }
  }

  /** The level of a heading: the one it has, brought between one and six. */
  function Level(n: Node): int {
    if n.attrs.level < 1 then 1 else if n.attrs.level > 6 then 6 else n.attrs.level
  }

  lemma EscapedFits(s: string)
    requires s != ""
    ensures FitsHeading(EscapeText(s)) <==> FitsHeading(s)
  {
    EscapeKeepsEdges(s);
    ClosingStays(s);
    EscapeKeepsLine(s);
  }

  /** A heading of plain runs is read with its level and text if and only if the text is
      on one line, has no blank at its ends and no closing sequence. */
  lemma HeadingReadsBack(n: Node, rest: string, names: Names)
    requires n.typ == Heading && AllPlain(n.content) && RunText(n.content) != ""
    requires rest == "" || EndsLine(rest[0])
    ensures var s := RunText(n.content);
            && (ReadHeading(MdBlock(n) + rest) == Some(HeadingLine(Level(n), EscapeText(s), rest)) <==> FitsHeading(s))
            && Read(EscapeText(s), names) == s
  {
    var s := RunText(n.content);
    HeadingBlock(n);
    EscapeKeepsEdges(s);
    EscapedIsRead(s, names);
    HeadingComesBackExactly(Level(n), EscapeText(s), rest);
    EscapedFits(s);
  }

  lemma EscapedIsRead(s: string, names: Names)
    ensures Read(EscapeText(s), names) == s
  {
    EscapeTextComesBack(s);
    InertHasNoReference(EscapeText(s), names);
  }

  /** A code block is read with its code and, if a fence can carry it, its language. */
  lemma CodeReadsBack(n: Node, rest: string, names: Names) returns (block: Block)
    requires n.typ == CodeBlock && Sensible(names) && (rest == "" || EndsLine(rest[0]))
    ensures ReadCodeBlock(MdBlock(n) + rest, names) == Some(block)
    ensures block.text == Terminated(RawText(n)) && block.rest == rest
    ensures block.info == n.attrs.language <==> FitsFence(n.attrs.language, names)
  {
    CodeBlockBlock(n);
    block := CodeBlockComesBack(n, rest, names);
  }

  /** A quote is read as the blocks it holds. */
  lemma QuoteReadsBack(n: Node)
    requires n.typ == Blockquote && MdBlocks(n.content) != ""
    ensures ReadQuote(MdBlock(n)) == (true, MdBlocks(n.content))
  {
    QuoteComesBack(MdBlocks(n.content));
  }

  /** An image that stands as a block is read with its attributes. */
  lemma ImageReadsBack(n: Node, after: string, names: Names, tags: Tags)
    requires n.typ == Image && Sensible(names) && BlockEnds(after, tags)
    ensures ReadBlockImage(MdBlock(n) + after, names, tags)
         == Some((Picture(n.attrs.alt, Target(n.attrs.src, n.attrs.title, "")), after))
       <==> TargetFits(n.attrs.src, n.attrs.title, names) && LinesStay(MdBlock(n), tags)
  {
    ImageBlock(n);
    BlockImageComesBackExactly(n.attrs.alt, n.attrs.src, n.attrs.title, after, names, tags);
  }

  lemma ImageBlock(n: Node)
    requires n.typ == Image
    ensures MdBlock(n) == ImageOf(n.attrs.alt, n.attrs.src, n.attrs.title)
  {
  }

  lemma CodeBlockBlock(n: Node)
    requires n.typ == CodeBlock
    ensures MdBlock(n) == CodeBlockOf(n)
  {
  }

  lemma HeadingBlock(n: Node)
    requires n.typ == Heading && AllPlain(n.content) && RunText(n.content) != ""
    ensures MdBlock(n) == HeadingOf(Level(n), EscapeText(RunText(n.content)))
  {
    PlainInlineIsEscaped(n.content, " ");
    EscapeKeepsEdges(RunText(n.content));
  }

  lemma ParagraphBlock(n: Node)
    requires n.typ == Paragraph
    ensures MdBlock(n) == LineStartsEscaped(MdInline(n.content, "\\\n"))
  {
  }

  lemma RunBlock(n: Node)
    requires n.typ == TextRun
    ensures MdBlock(n) == LineStartsEscaped(MdText(n))
  {
  }

  /** A horizontal rule is read as one. */
  lemma RuleReadsBack(n: Node)
    requires n.typ == HorizontalRule
    ensures ThematicBreak(MdBlock(n))
  {
    DashCount(MdBlock(n));
  }

  // --------------------------------------------------------------- marked runs

  /** What stands before a styled text: strike outermost, then italic, then bold. */
  function OpenMarks(n: Node): string {
    (if HasMark(n, Strike) then "~~" else "") + (if HasMark(n, Italic) then "*" else "")
    + (if HasMark(n, Bold) then "**" else "")
  }

  function CloseMarks(n: Node): string {
    (if HasMark(n, Bold) then "**" else "") + (if HasMark(n, Italic) then "*" else "")
    + (if HasMark(n, Strike) then "~~" else "")
  }

  /** The text of a run, as code or escaped. */
  function Inside(n: Node, text: string): string {
    if HasMark(n, Code) then SpanOf(text) else EscapeText(text)
  }

  /** A styled run keeps the blanks at its ends outside its delimiters, which nest in one
      order however the marks are listed; without a style there are no delimiters, and a
      run of blanks alone has none either. */
  lemma StyledRun(n: Node) returns (lead: string, core: string, trail: string)
    requires n.typ == TextRun && n.text != "" && LinkHref(n.marks) == ""
    ensures n.text == lead + core + trail && (forall c | c in lead + trail :: IsBlank(c))
    ensures core == "" || Tight(core)
    ensures OpenMarks(n) == "" ==> MdText(n) == Inside(n, n.text)
    ensures OpenMarks(n) != "" && core == "" ==> MdText(n) == n.text
    ensures OpenMarks(n) != "" && core != "" ==>
              MdText(n) == lead + (OpenMarks(n) + Inside(n, core) + CloseMarks(n)) + trail
  {
    lead, core, trail := Lead(n.text), Core(n.text), Trail(n.text);
    CoreSplits(n.text);
    DelimitersNest(n, core);
    DelimitersNest(n, n.text);
    LeadIsBlank(n.text);
  }

  lemma LeadIsBlank(s: string)
    ensures forall c | c in Lead(s) + Trail(s) :: IsBlank(c)
  {
    var l := TrimLeft(s, IsBlank);
    forall i | 0 <= i < |Trail(s)| ensures IsBlank(Trail(s)[i]) {
      assert Trail(s)[i] == l[|Core(s)| + i];
    }
    forall i | 0 <= i < |Lead(s)| ensures IsBlank(Lead(s)[i]) {
      assert Lead(s)[i] == s[i];
    }
  }

  lemma DelimitersNest(n: Node, text: string)
    ensures Delimited(n, text) == OpenMarks(n) + Inside(n, text) + CloseMarks(n)
    ensures OpenMarks(n) == "" <==> !Emphasized(n)
  {
    var inner := Inside(n, text);
    var bold := if HasMark(n, Bold) then "**" else "";
    var italic := if HasMark(n, Italic) then "*" else "";
    var strike := if HasMark(n, Strike) then "~~" else "";
    assert Wrapped(HasMark(n, Bold), "**", inner) == bold + inner + bold;
    assert Wrapped(HasMark(n, Italic), "*", bold + inner + bold) == italic + (bold + inner + bold) + italic;
    NestThree(strike, italic, bold, inner);
  }

  lemma NestThree(a: string, b: string, c: string, s: string)
    ensures a + (b + (c + s + c) + b) + a == a + b + c + s + (c + b + a)
  {
  }

  /** A link around plain text: its brackets, and its target behind them. */
  lemma LinkedRun(n: Node)
    requires n.typ == TextRun && n.text != "" && |n.marks| == 1 && n.marks[0].typ == Link && n.marks[0].href != ""
    ensures MdText(n) == "[" + EscapeText(n.text) + "](" + (MdTarget(n.marks[0].href, "") + ")")
  {
    LinkRun(n);
  }

  /** A hard break between two texts is a backslash at the end of the line in a paragraph,
      and a space in a heading. */
  lemma BreakBetween(n: Node, a: Node, h: Node, b: Node)
    requires n.content == [a, h, b] && Plain(a) && h.typ == HardBreak && Plain(b)
    ensures n.typ == Paragraph ==>
              MdBlock(n) == LineStartsEscaped(EscapeText(a.text) + ("\\\n" + EscapeText(b.text)))
    ensures n.typ == Heading ==>
              MdBlock(n) == HeadingOf(Level(n), EscapeText(a.text) + (" " + EscapeText(b.text)))
  {
    if n.typ == Paragraph {
      ParagraphBlock(n);
      InlineBreak(a, h, b, "\\\n");
    } else if n.typ == Heading {
      HeadingBreak(n, a, h, b);
    }
  }

  lemma HeadingBreak(n: Node, a: Node, h: Node, b: Node)
    requires n.typ == Heading && n.content == [a, h, b] && Plain(a) && h.typ == HardBreak && Plain(b)
    ensures MdBlock(n) == HeadingOf(Level(n), EscapeText(a.text) + (" " + EscapeText(b.text)))
  {
    InlineBreak(a, h, b, " ");
  }

  lemma MergedSnoc(init: seq<Node>, last: Node)
    ensures Merged(init + [last]) == MergeInto(Merged(init), last)
  {
    var all := init + [last];
    assert all[..|all| - 1] == init;
  }

  lemma InlineBreak(a: Node, h: Node, b: Node, br: string)
    requires Plain(a) && h.typ == HardBreak && Plain(b)
    ensures MdInline([a, h, b], br) == EscapeText(a.text) + (br + EscapeText(b.text))
  {
    assert [a] + [h] + [b] == [a, h, b];
    InlinePieceByPiece([a], h, [b], br);
    PlainPieces([a], br);
    PlainPieces([b], br);
    RunTextOfOne(a);
    RunTextOfOne(b);
    Regroup(EscapeText(a.text), br, EscapeText(b.text));
  }

  // ---------------------------------------------------------- inline content

  lemma {:induction false} PiecesConcat(a: seq<Node>, b: seq<Node>, br: string)
    ensures MdPieces(a + b, br) == MdPieces(a, br) + MdPieces(b, br)
  {
    if a == [] {
      assert a + b == b;
    } else {
      PiecesConcat(a[1..], b, br);
      FirstNode(a, b);
      PiecesStep(a, br);
      PiecesStep(a + b, br);
      Regroup(PieceOf(a[0], br), MdPieces(a[1..], br), MdPieces(b, br));
    }
  }

  lemma FirstNode(a: seq<Node>, b: seq<Node>)
    requires a != []
    ensures (a + b)[1..] == a[1..] + b && (a + b)[0] == a[0]
  {
  }

  /** How one node is written: a run by itself, a hard break as the form it has there, an
      image as one, and anything else as its own text, escaped, and its content. */
  function PieceOf(n: Node, br: string): string {
    if n.typ == TextRun then MdText(n)
    else if n.typ == HardBreak then br
    else if n.typ == Image then ImageOf(n.attrs.alt, n.attrs.src, n.attrs.title)
    else EscapeText(n.text) + MdInline(n.content, br)
  }

  lemma PiecesStep(nodes: seq<Node>, br: string)
    requires nodes != []
    ensures MdPieces(nodes, br) == PieceOf(nodes[0], br) + MdPieces(nodes[1..], br)
  {
  }

  lemma {:induction false} ApartAreMerged(nodes: seq<Node>)
    requires RunsApart(nodes)
    ensures Merged(nodes) == nodes
  {
    if nodes != [] {
      var init, last := nodes[..|nodes| - 1], nodes[|nodes| - 1];
      forall i | 0 <= i < |init| - 1 ensures !SameRun(init[i], init[i + 1]) {
        assert init[i] == nodes[i] && init[i + 1] == nodes[i + 1];
      }
      ApartAreMerged(init);
      assert init != [] ==> init[|init| - 1] == nodes[|nodes| - 2];
      assert nodes == init + [last];
    }
  }

  /** Inline content of which no two runs go together is written piece by piece. */
  lemma InlinePieceByPiece(before: seq<Node>, n: Node, after: seq<Node>, br: string)
    requires var nodes := before + [n] + after; RunsApart(nodes) && nodes[|nodes| - 1].typ != HardBreak
    ensures MdInline(before + [n] + after, br) == MdPieces(before, br) + PieceOf(n, br) + MdPieces(after, br)
  {
    ApartAreMerged(before + [n] + after);
    PiecesConcat(before, [n], br);
    PiecesConcat(before + [n], after, br);
    PiecesStep([n], br);
    assert [n][1..] == [] && PieceOf(n, br) + "" == PieceOf(n, br);
  }

  /** A hard break with nothing after it is written as nothing. */
  lemma TrailingBreakIsNothing(nodes: seq<Node>, h: Node, br: string)
    requires h.typ == HardBreak
    ensures MdInline(nodes + [h], br) == MdInline(nodes, br)
  {
    MergedSnoc(nodes, h);
    var merged := Merged(nodes);
    assert MergeInto(merged, h) == merged + [h];
    assert (merged + [h])[..|merged|] == merged;
  }

  // -------------------------------------------------------------------- lists

  /** What a reader takes an item for: its number, if it has one, and its content. */
  datatype Entry = Entry(number: Option<nat>, content: string)

  /** The number of an item, by its marker. */
  function NumberOf(line: string): Option<nat> {
    var w := MarkerWidth(line);
    if w <= 1 then None
    else if forall i | 0 <= i < w - 1 :: IsHexDigit(line[i]) then Some(Value(line[..w - 1], 10)) else None
  }

  /** The items that follow each other, as far as they go. */
  function ReadList(lines: seq<string>, col: nat): seq<Entry>
    decreases |lines|
  {
    if lines == [] then []
    else
      match ReadItem(Join(lines, "\n"), col)
      case None => []
      case Some(item) =>
        [Entry(NumberOf(lines[0]), item.content)]
        + if |item.left| < |lines| then ReadList(item.left, col) else []
  }

  /** A line that belongs to no item before it. */
  predicate StandsOut(line: string) {
    line != "" && !IsBlank(line[0])
  }

  lemma {:induction false} TakenUntil(lines: seq<string>, more: seq<string>, col: nat, width: nat)
    requires width > 0 && (forall i | 0 <= i < |lines| :: Belongs(lines[i], col, width))
    requires more != [] ==> StandsOut(more[0])
    ensures Taken(lines + more, col, width) == |lines|
  {
    if lines == [] {
      assert lines + more == more;
      if more != [] { assert !Blank(more[0]) && IndentColumns(more[0], col) == 0; }
    } else {
      assert (lines + more)[1..] == lines[1..] + more && (lines + more)[0] == lines[0];
      TakenUntil(lines[1..], more, col, width);
    }
  }

  lemma LaterLinesUntil(marker: string, lines: seq<string>, more: seq<string>, first: string, col: nat)
    requires lines != [] && marker != "" && (more != [] ==> StandsOut(more[0]))
    ensures Contents(first, ItemLines(marker, 0, lines)[1..] + more, col, |marker|)
         == Item(Join([first] + lines[1..], "\n"), more)
  {
    var later := ItemLines(marker, 0, lines)[1..];
    forall i | 0 <= i < |later|
      ensures Belongs(later[i], col, |marker|) && Outdented(later[i], col, |marker|) == lines[1..][i]
    {
      LaterItemLine(marker, i + 1, lines[i + 1], col);
    }
    TakenUntil(later, more, col, |marker|);
    assert (later + more)[..|later|] == later && (later + more)[|later|..] == more;
    assert OutdentedLines(later, col, |marker|) == lines[1..];
  }

  predicate OnOneLine(lines: seq<string>) {
    forall i | 0 <= i < |lines| :: '\n' !in lines[i]
  }

  lemma ItemLinesOnOneLine(marker: string, body: string)
    requires IsMarker(marker)
    ensures OnOneLine(ItemLines(marker, 0, Split(body, '\n')))
  {
    var lines, rest := ItemStarts(marker, body);
    forall i | 0 <= i < |lines| ensures '\n' !in lines[i] { SplitHasNoSep(ItemOf(marker, body), '\n', i); }
  }

  lemma SplitJoined(lines: seq<string>)
    requires lines != [] && OnOneLine(lines)
    ensures Split(Join(lines, "\n"), '\n') == lines
  {
    SplitJoin(lines, '\n');
  }

  /** An item that fits comes back whole also with other items behind it. */
  lemma ItemComesBackAmong(marker: string, body: string, more: seq<string>, col: nat)
    requires IsMarker(marker) && FitsItem(marker, body, col)
    requires (more != [] ==> StandsOut(more[0])) && OnOneLine(more)
    ensures var lines := ItemLines(marker, 0, Split(body, '\n'));
            ReadItem(Join(lines + more, "\n"), col) == Some(Item(FirstLineTrimmed(body), more))
  {
    var line := Split(body, '\n')[0];
    var lines, rest := ItemStarts(marker, body);
    ItemLinesOnOneLine(marker, body);
    SplitJoined(lines + more);
    FittingOpening(marker, line, rest, col);
    SecondLineBlank(marker, Split(body, '\n'));
    ItemReadsAmong(lines, more, col, |marker| - 1, |marker|, FirstLine(line));
    LaterLinesUntil(marker, Split(body, '\n'), more, FirstLine(line), col);
  }

  lemma ItemReadsAmong(lines: seq<string>, more: seq<string>, col: nat, w: nat, width: nat, first: string)
    requires lines != [] && Split(Join(lines + more, "\n"), '\n') == lines + more && !ThematicBreak(lines[0])
    requires MarkerWidth(lines[0]) == w > 0 && Opening(lines[0][w..], col, w) == Some((width, first))
    requires Blank(lines[0][w..]) && |lines| > 1 ==> !Blank(lines[1])
    requires more != [] ==> StandsOut(more[0])
    ensures ReadItem(Join(lines + more, "\n"), col) == Some(Contents(first, lines[1..] + more, col, width))
  {
    Ahead(lines, more);
    ItemReads(Join(lines + more, "\n"), col, lines + more, w, width, first);
  }

  lemma Ahead(lines: seq<string>, more: seq<string>)
    requires lines != [] && (more != [] ==> StandsOut(more[0]))
    ensures (lines + more)[0] == lines[0] && (lines + more)[1..] == lines[1..] + more
    ensures |lines + more| > 1 ==>
              if |lines| > 1 then (lines + more)[1] == lines[1] else !Blank((lines + more)[1])
  {
    if |lines| == 1 && more != [] {
      assert (lines + more)[1] == more[0] && !IsBlank(more[0][0]);
    }
  }

  /** The number the writer gives item i of a list. */
  function Numbered(n: Node, i: nat): Option<nat> {
    if n.typ != OrderedList then None
    else Some((if n.attrs.start < 1 then 1 else if n.attrs.start > 999_999_999 then 999_999_999 else n.attrs.start) + i)
  }

  lemma MarkerHasNumber(n: Node, i: nat, rest: string)
    requires IsMarker(Marker(n, i))
    ensures var marker := Marker(n, i); NumberOf(marker[..|marker| - 1] + rest) == Numbered(n, i)
  {
    var marker := Marker(n, i);
    MarkerIsFound(marker, rest);
    if n.typ == OrderedList {
      var number: nat := Clamp(n.attrs.start, 1, 999_999_999) + i;
      ItoaValue(number);
      DigitsAreNumber(Itoa(number), marker, rest);
    }
  }

  lemma DigitsAreNumber(digits: string, marker: string, rest: string)
    requires IsMarker(marker) && marker == digits + ". " && digits != ""
    requires forall i | 0 <= i < |digits| :: IsHexDigit(digits[i])
    ensures NumberOf(marker[..|marker| - 1] + rest) == Some(Value(digits, 10))
  {
    MarkerIsFound(marker, rest);
    BareNumber(digits, rest);
    NumberIs(digits + "." + rest, digits);
  }

  lemma BareNumber(digits: string, rest: string)
    ensures (digits + ". ")[..|digits + ". "| - 1] + rest == digits + "." + rest && digits <= digits + "." + rest
  {
    assert (digits + ". ")[..|digits| + 1] == digits + ".";
  }

  lemma NumberIs(line: string, digits: string)
    requires MarkerWidth(line) == |digits| + 1 && digits != "" && digits <= line
    requires forall i | 0 <= i < |digits| :: IsHexDigit(digits[i])
    ensures NumberOf(line) == Some(Value(digits, 10))
  {
    assert line[..|digits|] == digits;
    assert forall i | 0 <= i < |digits| :: line[i] == digits[i];
  }

  /** The marker is one a reader knows, and the body fits behind it. */
  predicate ItemFits(n: Node, i: nat, item: Node, col: nat) {
    IsMarker(Marker(n, i)) && FitsItem(Marker(n, i), MdBlocks(item.content), col)
  }

  predicate ItemsFit(n: Node, i: nat, items: seq<Node>, col: nat)
    decreases items
  {
    items == [] || (ItemFits(n, i, items[0], col) && ItemsFit(n, i + 1, items[1..], col))
  }

  /** The items as the list has them: numbered, each with its blocks. */
  function Entries(n: Node, i: nat, items: seq<Node>): (r: seq<Entry>)
    ensures |r| == |items|
    ensures forall j | 0 <= j < |items| ::
              r[j] == Entry(Numbered(n, i + j), FirstLineTrimmed(MdBlocks(items[j].content)))
    decreases items
  {
    if items == [] then []
    else [Entry(Numbered(n, i), FirstLineTrimmed(MdBlocks(items[0].content)))] + Entries(n, i + 1, items[1..])
  }

  function LinesOf(n: Node, i: nat, items: seq<Node>): seq<string>
    decreases items
  {
    if items == [] then []
    else ItemLines(Marker(n, i), 0, Split(MdBlocks(items[0].content), '\n')) + LinesOf(n, i + 1, items[1..])
  }

  lemma ItemStandsOut(marker: string, body: string)
    requires IsMarker(marker)
    ensures StandsOut(ItemLines(marker, 0, Split(body, '\n'))[0])
  {
    var lines, rest := ItemStarts(marker, body);
  }

  lemma {:induction false} ItemsHaveLines(n: Node, i: nat, items: seq<Node>, col: nat)
    requires items != [] && ItemsFit(n, i, items, col)
    ensures Split(Join(MdItems(n, i, items), "\n"), '\n') == LinesOf(n, i, items)
    ensures LinesOf(n, i, items) != [] && StandsOut(LinesOf(n, i, items)[0]) && OnOneLine(LinesOf(n, i, items))
    decreases items
  {
    var marker, body, later := Marker(n, i), MdBlocks(items[0].content), items[1..];
    var item := ItemOf(marker, body);
    MarkerOnOneLine(marker);
    ItemLinesStayLines(marker, body);
    ItemStandsOut(marker, body);
    ItemLinesOnOneLine(marker, body);
    if later == [] {
      OneItem(n, i, items, item);
    } else {
      ItemsHaveLines(n, i + 1, later, col);
      ItemsJoin(item, MdItems(n, i + 1, later));
    }
  }

  lemma OneItem(n: Node, i: nat, items: seq<Node>, item: string)
    requires items != [] && items[1..] == [] && item == ItemOf(Marker(n, i), MdBlocks(items[0].content))
    ensures Join(MdItems(n, i, items), "\n") == item
    ensures LinesOf(n, i, items) == ItemLines(Marker(n, i), 0, Split(MdBlocks(items[0].content), '\n'))
  {
    var later := items[1..];
    assert MdItems(n, i + 1, later) == [] && LinesOf(n, i + 1, later) == [];
    assert MdItems(n, i, items) == [item] + [];
  }

  lemma ItemsJoin(item: string, rest: seq<string>)
    requires rest != []
    ensures Split(Join([item] + rest, "\n"), '\n') == Split(item, '\n') + Split(Join(rest, "\n"), '\n')
  {
    assert ([item] + rest)[1..] == rest;
    Regroup(item, "\n", Join(rest, "\n"));
    SplitApart(item, Join(rest, "\n"));
  }

  lemma {:induction false} SplitApart(a: string, b: string)
    ensures Split(a + ("\n" + b), '\n') == Split(a, '\n') + Split(b, '\n')
  {
    var s := a + ("\n" + b);
    if a == "" {
      assert s == "\n" + b && s[1..] == b;
    } else {
      assert s[1..] == a[1..] + ("\n" + b);
      SplitApart(a[1..], b);
    }
  }

  lemma {:induction false} ItemsReadBack(n: Node, i: nat, items: seq<Node>, col: nat)
    requires ItemsFit(n, i, items, col)
    ensures ReadList(LinesOf(n, i, items), col) == Entries(n, i, items)
    decreases items
  {
    if items != [] {
      var marker, body, later := Marker(n, i), MdBlocks(items[0].content), items[1..];
      var more := LinesOf(n, i + 1, later);
      if later != [] { ItemsHaveLines(n, i + 1, later, col); }
      ItemComesBackAmong(marker, body, more, col);
      FirstLineHasNumber(n, i, body);
      ItemsReadBack(n, i + 1, later, col);
      ListStep(ItemLines(marker, 0, Split(body, '\n')), more, FirstLineTrimmed(body), col);
    }
  }

  lemma FirstLineHasNumber(n: Node, i: nat, body: string)
    requires IsMarker(Marker(n, i))
    ensures NumberOf(ItemLines(Marker(n, i), 0, Split(body, '\n'))[0]) == Numbered(n, i)
  {
    var rest := MarkerLine(Marker(n, i), Split(body, '\n')[0]);
    MarkerHasNumber(n, i, rest);
  }

  lemma ListStep(lines: seq<string>, more: seq<string>, content: string, col: nat)
    requires lines != [] && ReadItem(Join(lines + more, "\n"), col) == Some(Item(content, more))
    ensures ReadList(lines + more, col) == [Entry(NumberOf(lines[0]), content)] + ReadList(more, col)
  {
    assert (lines + more)[0] == lines[0];
  }

  /** A list is read item by item, each with the number the list gives it and with its own
      blocks, when every item fits one. */
  lemma ListReadsBack(n: Node, col: nat)
    requires (n.typ == BulletList || n.typ == OrderedList) && ItemsFit(n, 0, n.content, col) && n.content != []
    ensures var entries := ReadList(Split(MdBlock(n), '\n'), col);
            && |entries| == |n.content|
            && forall j | 0 <= j < |entries| ::
                 entries[j] == Entry(Numbered(n, j), FirstLineTrimmed(MdBlocks(n.content[j].content)))
  {
    ListIsItems(n);
    ItemsHaveLines(n, 0, n.content, col);
    ItemsReadBack(n, 0, n.content, col);
  }

  lemma ListIsItems(n: Node)
    requires n.typ == BulletList || n.typ == OrderedList
    ensures MdBlock(n) == Join(MdItems(n, 0, n.content), "\n")
  {
  }
}
