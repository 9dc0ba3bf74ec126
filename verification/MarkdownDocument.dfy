/** Reading a whole rendered document: its blocks come back one after the other, each as
    the kind it was and with its text. */
module MarkdownDocument {
  import opened Wrappers
  import opened Body
  import opened Text
  import opened Lines
  import opened Escapes
  import opened References
  import opened Headings
  import opened Containers
  import opened Links
  import opened Paragraphs
  import opened CodeMarkup
  import opened Markdown
  import opened MarkdownReads

  // ------------------------------------------------------------------ the reader

  /** What a reader takes a block for, its text decoded. */
  datatype View =
    | ParagraphView(text: string)
    | HeadingView(level: int, text: string)
    | CodeView(language: string, code: string)
    | ImageView(picture: Picture)
    | RuleView

  function FirstLineOfAll(s: string): string {
    s[..LineLength(s)]
  }

  /** A paragraph is an image when it is one and nothing else. */
  function ViewOfParagraph(text: string, names: Names): View {
    match ReadImage(text, names)
    case Some(picture) => if picture.target.rest == "" then ImageView(picture) else ParagraphView(Read(text, names))
    case None => ParagraphView(Read(text, names))
  }

  /** The block that starts s, unindented and no container, and what follows it. */
  function ReadBlock(s: string, names: Names, tags: Tags): (View, string) {
    match ReadHeading(s)
    case Some(heading) => (HeadingView(heading.level, Read(heading.text, names)), heading.rest)
    case None =>
      match ReadCodeBlock(s, names)
      case Some(block) => (CodeView(block.info, block.text), block.rest)
      case None =>
        if ThematicBreak(FirstLineOfAll(s)) then (RuleView, s[LineLength(s)..])
        else
          var (text, after) := ReadParagraph(s, tags);
          (ViewOfParagraph(text, names), after)
  }

  /** s without the line endings it starts with. */
  function SkipEndings(s: string): (r: string)
    ensures |r| <= |s|
  {
    if s != "" && EndsLine(s[0]) then SkipEndings(s[1..]) else s
  }

  /** The blocks of a text without containers, one after the other. */
  function ReadDocument(s: string, names: Names, tags: Tags): seq<View>
    decreases |s|
  {
    var start := SkipEndings(s);
    if start == "" then []
    else
      var (view, after) := ReadBlock(start, names, tags);
      [view] + if |after| < |start| then ReadDocument(after, names, tags) else []
  }

  // ---------------------------------------------------------- documents that fit

  /** Ordinary text a paragraph can hold. */
  predicate FitsText(s: string) {
    Tight(s) && s[0] != '\n' && '\r' !in s && LinesStandOut(s)
  }

  /** A block that a reader can take, no list and no quote; a node of a kind the converter
      does not know is the blocks in it, behind its own text. */
  predicate FitsBlock(n: Node, names: Names, tags: Tags)
    decreases n, 1
  {
    match n.typ
    case Paragraph => AllPlain(n.content) && FitsText(RunText(n.content))
    case TextRun => Plain(n) && FitsText(n.text)
    case Heading => AllPlain(n.content) && FitsHeading(RunText(n.content))
    case CodeBlock => FitsFence(n.attrs.language, names)
    case Image => TargetFits(n.attrs.src, n.attrs.title, names) && LinesStay(MdImage(n), tags)
    case HorizontalRule => true
    case HardBreak => true
    case BulletList => false
    case OrderedList => false
    case Blockquote => false
    case _ => (n.text == "" || FitsText(n.text)) && AllFit(n.content, names, tags)
  }

  predicate AllFit(nodes: seq<Node>, names: Names, tags: Tags)
    decreases nodes, 0
  {
    nodes == [] || (FitsBlock(nodes[0], names, tags) && AllFit(nodes[1..], names, tags))
  }

  /** What the blocks of a node are. */
  function ViewsOf(n: Node): seq<View>
    decreases n, 1
  {
    match n.typ
    case Paragraph => [ParagraphView(RunText(n.content))]
    case TextRun => [ParagraphView(n.text)]
    case Heading => [HeadingView(Level(n), RunText(n.content))]
    case CodeBlock => [CodeView(n.attrs.language, Terminated(RawText(n)))]
    case Image => [ImageView(Picture(n.attrs.alt, Target(n.attrs.src, n.attrs.title, "")))]
    case HorizontalRule => [RuleView]
    case HardBreak => []
    case _ => OwnView(n.text) + Views(n.content)
  }

  function Views(nodes: seq<Node>): seq<View>
    decreases nodes, 0
  {
    if nodes == [] then [] else ViewsOf(nodes[0]) + Views(nodes[1..])
  }

  // ------------------------------------------------------------- block by block

  lemma NoHeading(s: string)
    requires s != "" && s[0] != '#'
    ensures ReadHeading(s) == None
  {
    assert Run(s, '#', '#') == 0;
  }

  lemma NoFence(s: string, names: Names)
    requires s != "" && s[0] != '`'
    ensures ReadCodeBlock(s, names) == None
  {
  }

  lemma HeadingShows(s: string)
    requires ReadHeading(s).Some?
    ensures AtxHeading(FirstLineOfAll(s))
  {
    var line, n := FirstLineOfAll(s), Run(s, '#', '#');
    HashesStayOnLine(s);
    assert (forall i | 0 <= i < n :: line[i] == '#') && EndsAt(line, n);
  }

  lemma FenceShows(s: string, names: Names)
    requires ReadCodeBlock(s, names).Some?
    ensures FenceOpens(FirstLineOfAll(s))
  {
    TicksStayOnLine(s);
  }

  /** A text that starts no block and is not indented is read as a paragraph. */
  lemma ParagraphIsNext(s: string, names: Names, tags: Tags)
    requires s != "" && s[0] != ' ' && !StartsBlock(FirstLineOfAll(s)) && !EndsLine(s[0])
    ensures var (text, after) := ReadParagraph(s, tags);
            ReadBlock(s, names, tags) == (ViewOfParagraph(text, names), after)
  {
    var line := FirstLineOfAll(s);
    assert line[0] == s[0] && Indent(line) == 0 && line[0..] == line;
    if ReadHeading(s).Some? { HeadingShows(s); }
    if ReadCodeBlock(s, names).Some? { FenceShows(s, names); }
  }

  /** Escaped text is no image. */
  lemma EscapedIsNoImage(s: string, names: Names)
    requires Inert(s)
    ensures ReadImage(s, names) == None
  {
    if |s| >= 2 {
      assert s[..2][0] == s[0] && s[..2][1] == s[1] == s[1..][0];
    }
  }

  lemma FirstLineIsFirst(s: string, after: string)
    requires '\r' !in s && (after == "" || EndsLine(after[0]))
    ensures FirstLineOfAll(s + after) == Split(s, '\n')[0]
  {
    var line := Split(s, '\n')[0];
    SplitHasNoSep(s, '\n', 0);
    PartHasNone(s, '\r', 0);
    var rest := FirstPart(s);
    assert s == line + rest;
    LineLengthIs(s + after, |line|) by {
      assert forall i | 0 <= i < |line| :: (s + after)[i] == line[i];
      assert |line| < |s + after| ==> (s + after)[|line|] == if rest != "" then rest[0] else after[0];
    }
  }

  lemma {:induction false} FirstPart(s: string) returns (rest: string)
    ensures s == Split(s, '\n')[0] + rest && (rest != "" ==> rest[0] == '\n')
  {
    if s == "" || s[0] == '\n' {
      rest := s;
    } else {
      rest := FirstPart(s[1..]);
      assert s == [s[0]] + s[1..];
    }
  }

  lemma GuardedHasNoReturn(s: string)
    requires '\r' !in s
    ensures '\r' !in LineStartsEscaped(EscapeText(s))
  {
    var guarded := LineStartsEscaped(EscapeText(s));
    var lines := Split(guarded, '\n');
    forall i | 0 <= i < |lines| ensures '\r' !in lines[i] {
      GuardedLine(s, 0);
      GuardedLine(s, i);
    }
    JoinSplit(guarded, '\n');
    JoinHasNone(lines, '\r');
  }

  lemma {:induction false} JoinHasNone(parts: seq<string>, c: char)
    requires c != '\n' && forall i | 0 <= i < |parts| :: c !in parts[i]
    ensures c !in Join(parts, "\n")
  {
    if |parts| > 1 {
      JoinHasNone(parts[1..], c);
    }
  }

  /** Escaped text is read as a paragraph of the text. */
  lemma TextIsRead(s: string, after: string, names: Names, tags: Tags)
    requires FitsText(s) && BlockEnds(after, tags)
    ensures var guarded := LineStartsEscaped(EscapeText(s));
            && guarded != "" && !EndsLine(guarded[0])
            && ReadBlock(guarded + after, names, tags) == (ParagraphView(s), after)
  {
    var guarded := LineStartsEscaped(EscapeText(s));
    OrdinaryParagraphComesBackExactly(s, after, names, tags);
    GuardedStartsNothing(s, after);
    ParagraphIsNext(guarded + after, names, tags);
    OrdinaryTextStaysOrdinary(s);
    EscapedIsNoImage(guarded, names);
  }

  lemma GuardedStartsNothing(s: string, after: string)
    requires FitsText(s) && (after == "" || EndsLine(after[0]))
    ensures var guarded := LineStartsEscaped(EscapeText(s));
            && guarded != "" && !EndsLine(guarded[0]) && guarded + after != ""
            && (guarded + after)[0] == guarded[0] && !IsBlank(guarded[0])
            && !StartsBlock(FirstLineOfAll(guarded + after))
  {
    var guarded := LineStartsEscaped(EscapeText(s));
    GuardedKeepsEdges(s);
    GuardedHasNoReturn(s);
    FirstLineIsFirst(guarded, after);
    OrdinaryTextStaysOrdinary(s);
    assert Split(guarded, '\n')[0] in Split(guarded, '\n');
  }

  lemma HeadingIsRead(n: Node, after: string, names: Names, tags: Tags)
    requires n.typ == Heading && AllPlain(n.content) && FitsHeading(RunText(n.content))
    requires after == "" || EndsLine(after[0])
    ensures ReadBlock(MdBlock(n) + after, names, tags) == (HeadingView(Level(n), RunText(n.content)), after)
  {
    HeadingReadsBack(n, after, names);
  }

  lemma HeadingShowsHash(n: Node)
    requires n.typ == Heading && AllPlain(n.content) && RunText(n.content) != ""
    ensures MdBlock(n) != "" && MdBlock(n)[0] == '#'
  {
    HeadingBlock(n);
    HashAhead(Level(n), EscapeText(RunText(n.content)));
  }

  lemma HashAhead(level: nat, text: string)
    requires level > 0
    ensures HeadingOf(level, text) != "" && HeadingOf(level, text)[0] == '#'
  {
    assert Hashes(level)[0] == '#';
  }

  lemma CodeIsRead(n: Node, after: string, names: Names, tags: Tags)
    requires n.typ == CodeBlock && FitsFence(n.attrs.language, names) && Sensible(names)
    requires after == "" || EndsLine(after[0])
    ensures CodeBlockOf(n) != "" && CodeBlockOf(n)[0] == '`'
    ensures ReadBlock(CodeBlockOf(n) + after, names, tags)
         == (CodeView(n.attrs.language, Terminated(RawText(n))), after)
  {
    var block := CodeBlockComesBack(n, after, names);
    FenceStartsBlock(n);
    FenceIsNext(CodeBlockOf(n), after, block, names, tags);
  }

  lemma FenceIsNext(code: string, after: string, block: Block, names: Names, tags: Tags)
    requires code != "" && code[0] == '`' && ReadCodeBlock(code + after, names) == Some(block)
    ensures ReadBlock(code + after, names, tags) == (CodeView(block.info, block.text), block.rest)
  {
    assert (code + after)[0] == '`';
    NoHeading(code + after);
  }

  lemma FenceStartsBlock(n: Node)
    ensures CodeBlockOf(n) != "" && CodeBlockOf(n)[0] == '`'
  {
    var fence := Fence(RawText(n));
    assert fence[0] == '`';
    Regroup(fence, Info(n.attrs.language), "\n");
    assert CodeBlockOf(n)[0] == fence[0];
  }

  lemma RuleIsRead(rule: string, after: string, names: Names, tags: Tags)
    requires rule == "---" && (after == "" || EndsLine(after[0]))
    ensures ReadBlock(rule + after, names, tags) == (RuleView, after)
  {
    var s := rule + after;
    DashCount(rule);
    LineOf(rule, after);
    RuleAhead(rule, after);
    NoHeading(s);
    NoFence(s, names);
  }

  lemma RuleAhead(rule: string, after: string)
    requires rule != ""
    ensures (rule + after)[..|rule|] == rule && (rule + after)[|rule|..] == after && (rule + after)[0] == rule[0]
  {
  }

  lemma ImageIsRead(alt: string, src: string, title: string, after: string, names: Names, tags: Tags)
    requires TargetFits(src, title, names) && LinesStay(ImageOf(alt, src, title), tags)
    requires Sensible(names) && BlockEnds(after, tags)
    ensures ReadBlock(ImageOf(alt, src, title) + after, names, tags)
         == (ImageView(Picture(alt, Target(src, title, ""))), after)
  {
    BlockImageComesBackExactly(alt, src, title, after, names, tags);
    ImageEnds(alt, src, title);
    BangIsNext(ImageOf(alt, src, title), after, names, tags);
  }

  lemma BangIsNext(image: string, after: string, names: Names, tags: Tags)
    requires image != "" && image[0] == '!'
    ensures var (text, rest) := ReadParagraph(image + after, tags);
            ReadBlock(image + after, names, tags) == (ViewOfParagraph(text, names), rest)
  {
    var s := image + after;
    assert s[0] == '!';
    NoHeading(s);
    NoFence(s, names);
    BangIsNoRule(s);
  }

  lemma BangIsNoRule(s: string)
    requires s != "" && s[0] == '!'
    ensures !ThematicBreak(FirstLineOfAll(s))
  {
    assert LineLength(s) > 0 && FirstLineOfAll(s)[0] == '!';
  }

  /** The node is a block by itself. */
  predicate IsBlock(n: Node) {
    n.typ in [Paragraph, TextRun, Heading, CodeBlock, HorizontalRule, Image]
  }

  lemma BlockIsShown(n: Node, names: Names, tags: Tags)
    requires IsBlock(n) && FitsBlock(n, names, tags)
    ensures MdBlock(n) != "" && !EndsLine(MdBlock(n)[0])
  {
    match n.typ
    case Paragraph =>
      PlainBlock(n);
      GuardedStartsNothing(RunText(n.content), "");
    case TextRun =>
      PlainBlock(n);
      GuardedStartsNothing(n.text, "");
    case Heading => HeadingShowsHash(n);
    case CodeBlock =>
      CodeBlockBlock(n);
      FenceStartsBlock(n);
    case HorizontalRule =>
    case Image =>
      ImageBlock(n);
      ImageEnds(n.attrs.alt, n.attrs.src, n.attrs.title);
  }

  lemma PlainBlockIsRead(n: Node, s: string, after: string, names: Names, tags: Tags)
    requires (n.typ == Paragraph && AllPlain(n.content) && s == RunText(n.content)) || (Plain(n) && s == n.text)
    requires FitsText(s) && BlockEnds(after, tags)
    ensures ReadBlock(MdBlock(n) + after, names, tags) == (ParagraphView(s), after)
  {
    PlainBlock(n);
    TextIsRead(s, after, names, tags);
  }

  /** Every block that fits is read as what it is, and the reader goes on behind it. */
  lemma BlockIsRead(n: Node, after: string, names: Names, tags: Tags)
    requires IsBlock(n) && FitsBlock(n, names, tags) && Sensible(names) && BlockEnds(after, tags)
    ensures |ViewsOf(n)| == 1 && ReadBlock(MdBlock(n) + after, names, tags) == (ViewsOf(n)[0], after)
  {
    match n.typ
    case Paragraph => PlainBlockIsRead(n, RunText(n.content), after, names, tags);
    case TextRun => PlainBlockIsRead(n, n.text, after, names, tags);
    case Heading => HeadingIsRead(n, after, names, tags);
    case CodeBlock =>
      CodeBlockBlock(n);
      CodeIsRead(n, after, names, tags);
    case HorizontalRule => RuleIsRead(MdBlock(n), after, names, tags);
    case Image =>
      ImageBlock(n);
      ImageIsRead(n.attrs.alt, n.attrs.src, n.attrs.title, after, names, tags);
  }

  // ------------------------------------------------------------- the document

  /** A blank line ends a block. */
  lemma GapEnds(s: string, tags: Tags)
    ensures BlockEnds("\n\n" + s, tags)
  {
    var after := "\n\n" + s;
    assert after[1] == '\n' && Ending(after) == 1;
    assert after[1..][0] == '\n' && LineLength(after[1..]) == 0;
  }

  lemma GapIsSkipped(s: string)
    ensures SkipEndings("\n\n" + s) == SkipEndings(s)
  {
    var t := "\n\n" + s;
    assert t[1..] == "\n" + s && t[1..][1..] == s;
  }

  lemma DocumentBehindGap(s: string, names: Names, tags: Tags)
    ensures ReadDocument("\n\n" + s, names, tags) == ReadDocument(s, names, tags)
  {
    GapIsSkipped(s);
  }

  lemma DocumentStep(block: string, after: string, view: View, names: Names, tags: Tags)
    requires block != "" && !EndsLine(block[0]) && ReadBlock(block + after, names, tags) == (view, after)
    ensures ReadDocument(block + after, names, tags) == [view] + ReadDocument(after, names, tags)
  {
    assert (block + after)[0] == block[0];
  }

  /** Two texts, set apart by a blank line when there are two. */
  function Apart(a: string, b: string): string {
    if a == "" then b else if b == "" then a else a + ("\n\n" + b)
  }

  lemma {:induction false} BlockListShows(nodes: seq<Node>)
    ensures MdBlocks(nodes) == "" <==> MdBlockList(nodes) == []
  {
    if nodes != [] { BlockListShows(nodes[1..]); }
  }

  /** The blocks of a document stand apart by a blank line, one behind the other. */
  lemma BlocksStandApart(nodes: seq<Node>)
    requires nodes != []
    ensures MdBlocks(nodes) == Apart(MdBlock(nodes[0]), MdBlocks(nodes[1..]))
  {
    var b, rest := MdBlock(nodes[0]), MdBlockList(nodes[1..]);
    BlockListShows(nodes[1..]);
    if b == "" {
      assert [] + rest == rest;
    } else if rest == [] {
      assert [b] + rest == [b];
    } else {
      assert ([b] + rest)[1..] == rest;
      Regroup(b, "\n\n", Join(rest, "\n\n"));
    }
  }

  lemma PartsStandApart(a: string, b: string)
    ensures Join(Parts(a, b), "\n\n") == Apart(a, b)
  {
    if a != "" && b != "" {
      assert Parts(a, b)[1..] == [b];
      Regroup(a, "\n\n", b);
    }
  }

  /** The text is read as these blocks wherever a block may end behind it. */
  ghost predicate ReadAs(s: string, views: seq<View>, names: Names, tags: Tags) {
    (s == "" ==> views == []) && forall after | BlockEnds(after, tags) ::
      ReadDocument(s + after, names, tags) == views + ReadDocument(after, names, tags)
  }

  lemma NothingIsRead(names: Names, tags: Tags)
    ensures ReadAs("", [], names, tags)
  {
    forall after | BlockEnds(after, tags)
      ensures ReadDocument("" + after, names, tags) == [] + ReadDocument(after, names, tags)
    {
      assert "" + after == after;
    }
  }

  lemma ReadApart(a: string, va: seq<View>, b: string, vb: seq<View>, names: Names, tags: Tags)
    requires ReadAs(a, va, names, tags) && ReadAs(b, vb, names, tags)
    ensures ReadAs(Apart(a, b), va + vb, names, tags)
  {
    if a == "" {
      assert va + vb == vb;
    } else if b == "" {
      assert va + vb == va;
    } else {
      forall after | BlockEnds(after, tags)
        ensures ReadDocument(Apart(a, b) + after, names, tags) == va + vb + ReadDocument(after, names, tags)
      {
        GapEnds(b + after, tags);
        ApartIsRead(a, va, b, vb, after, names, tags);
      }
    }
  }

  lemma ApartIsRead(
      a: string, va: seq<View>, b: string, vb: seq<View>, after: string, names: Names, tags: Tags)
    requires a != "" && b != ""
    requires var rest := "\n\n" + (b + after);
             ReadDocument(a + rest, names, tags) == va + ReadDocument(rest, names, tags)
    requires ReadDocument(b + after, names, tags) == vb + ReadDocument(after, names, tags)
    ensures ReadDocument(Apart(a, b) + after, names, tags) == va + vb + ReadDocument(after, names, tags)
  {
    DocumentBehindGap(b + after, names, tags);
    GapJoins(a, b, after);
    ViewsInRow(va, vb, ReadDocument(after, names, tags));
  }

  lemma GapJoins(a: string, b: string, after: string)
    ensures a + ("\n\n" + b) + after == a + ("\n\n" + (b + after))
  {
  }

  lemma ViewsInRow(a: seq<View>, b: seq<View>, c: seq<View>)
    ensures a + (b + c) == a + b + c
  {
  }

  lemma OneBlockIsRead(block: string, view: View, names: Names, tags: Tags)
    requires block != "" && !EndsLine(block[0])
    requires forall after | BlockEnds(after, tags) :: ReadBlock(block + after, names, tags) == (view, after)
    ensures ReadAs(block, [view], names, tags)
  {
    forall after | BlockEnds(after, tags)
      ensures ReadDocument(block + after, names, tags) == [view] + ReadDocument(after, names, tags)
    {
      DocumentStep(block, after, view, names, tags);
    }
  }

  lemma OwnTextIsRead(s: string, names: Names, tags: Tags)
    requires s == "" || FitsText(s)
    ensures ReadAs(LineStartsEscaped(EscapeText(s)), OwnView(s), names, tags)
  {
    var guarded := LineStartsEscaped(EscapeText(s));
    GuardedKeepsEdges(s);
    if s == "" {
      NothingIsRead(names, tags);
    } else {
      forall after | BlockEnds(after, tags)
        ensures ReadBlock(guarded + after, names, tags) == (ParagraphView(s), after)
      {
        TextIsRead(s, after, names, tags);
      }
      GuardedStartsNothing(s, "");
      OneBlockIsRead(guarded, ParagraphView(s), names, tags);
    }
  }

  lemma {:induction false} NodeReadsBack(n: Node, names: Names, tags: Tags)
    requires FitsBlock(n, names, tags) && Sensible(names)
    ensures ReadAs(MdBlock(n), ViewsOf(n), names, tags)
    decreases n, 1
  {
    if IsBlock(n) {
      SingleReadsBack(n, names, tags);
    } else if n.typ == HardBreak {
      NothingIsRead(names, tags);
    } else {
      TransparentBlock(n, names, tags);
      OwnTextIsRead(n.text, names, tags);
      NodesReadBack(n.content, names, tags);
      ReadApart(LineStartsEscaped(EscapeText(n.text)), OwnView(n.text), MdBlocks(n.content), Views(n.content), names,
          tags);
    }
  }

  lemma SingleReadsBack(n: Node, names: Names, tags: Tags)
    requires IsBlock(n) && FitsBlock(n, names, tags) && Sensible(names)
    ensures ReadAs(MdBlock(n), ViewsOf(n), names, tags)
  {
    OneView(n);
    var block, view := MdBlock(n), ViewsOf(n)[0];
    BlockIsShown(n, names, tags);
    forall after | BlockEnds(after, tags) ensures ReadBlock(block + after, names, tags) == (view, after) {
      BlockIsRead(n, after, names, tags);
    }
    OneBlockIsRead(block, view, names, tags);
  }

  lemma OneView(n: Node)
    requires IsBlock(n)
    ensures |ViewsOf(n)| == 1 && ViewsOf(n) == [ViewsOf(n)[0]]
  {
  }

  function OwnView(text: string): seq<View> {
    if text == "" then [] else [ParagraphView(text)]
  }

  /** A node of an unknown kind is its own text and its blocks. */
  lemma TransparentBlock(n: Node, names: Names, tags: Tags)
    requires FitsBlock(n, names, tags) && !IsBlock(n) && n.typ != HardBreak
    ensures MdBlock(n) == Apart(LineStartsEscaped(EscapeText(n.text)), MdBlocks(n.content))
    ensures ViewsOf(n) == OwnView(n.text) + Views(n.content) && AllFit(n.content, names, tags)
    ensures n.text == "" || FitsText(n.text)
  {
    PartsStandApart(LineStartsEscaped(EscapeText(n.text)), MdBlocks(n.content));
  }

  lemma {:induction false} NodesReadBack(nodes: seq<Node>, names: Names, tags: Tags)
    requires AllFit(nodes, names, tags) && Sensible(names)
    ensures ReadAs(MdBlocks(nodes), Views(nodes), names, tags)
    decreases nodes, 0
  {
    if nodes == [] {
      NothingIsRead(names, tags);
    } else {
      NodeReadsBack(nodes[0], names, tags);
      NodesReadBack(nodes[1..], names, tags);
      BlocksStandApart(nodes);
      ReadApart(MdBlock(nodes[0]), ViewsOf(nodes[0]), MdBlocks(nodes[1..]), Views(nodes[1..]), names, tags);
    }
  }

  /** A document of blocks that fit is read back block by block: the same kinds in the
      same order, with the same texts, levels, languages and targets. */
  lemma DocumentReadsBack(root: Node, names: Names, tags: Tags)
    requires AllFit(root.content, names, tags) && Sensible(names)
    requires var s := MdBlocks(root.content); s != "" ==> !IsSpace(s[0]) && !IsSpace(s[|s| - 1])
    ensures ReadDocument(RenderMarkdown(root), names, tags) == Views(root.content)
  {
    var s := MdBlocks(root.content);
    NothingTrimmed(s);
    NodesReadBack(root.content, names, tags);
    ReadToEnd(s, Views(root.content), names, tags);
  }

  lemma ReadToEnd(s: string, views: seq<View>, names: Names, tags: Tags)
    requires ReadAs(s, views, names, tags)
    ensures ReadDocument(s, names, tags) == views
  {
    var after := "";
    assert BlockEnds(after, tags) && s + after == s && ReadDocument(after, names, tags) == [];
  }

  lemma NothingTrimmed(s: string)
    requires s != "" ==> !IsSpace(s[0]) && !IsSpace(s[|s| - 1])
    ensures TrimSpace(s) == s
  {
    assert Leading(s, IsSpace) == 0 && s[0..] == s;
  }
}