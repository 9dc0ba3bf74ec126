/** The CommonMark rendering of a document, and that it keeps its text. */
module Markdown {
  import opened Body
  import opened Text
  import opened CodeMarkup
  import opened Escapes
  import opened Containers
  import opened Links
  import opened Headings

  // --------------------------------------------------------------- text runs

  predicate SameRun(a: Node, b: Node) {
    a.typ == TextRun && b.typ == TextRun && a.marks == b.marks
  }

  /** One more node: joined to a run with the same marks, or appended. */
  function MergeInto(out: seq<Node>, n: Node): (r: seq<Node>)
    ensures r != []
  {
    if out != [] && SameRun(out[|out| - 1], n) then
      var last := out[|out| - 1];
      out[..|out| - 1] + [last.(text := last.text + n.text)]
    else
      out + [n]
  }

  function Merged(nodes: seq<Node>): seq<Node> {
    if nodes == [] then [] else MergeInto(Merged(nodes[..|nodes| - 1]), nodes[|nodes| - 1])
  }

  /** mergeTextRuns. */
  method MergeTextRuns(nodes: seq<Node>) returns (out: seq<Node>)
    ensures out == Merged(nodes)
  {
    out := [];
    for i := 0 to |nodes|
      invariant out == Merged(nodes[..i])
    {
      assert nodes[..i + 1][..i] == nodes[..i];
      var n := nodes[i];
      if n.typ == TextRun && out != [] && out[|out| - 1].typ == TextRun && out[|out| - 1].marks == n.marks {
        var last := out[|out| - 1];
        out := out[..|out| - 1] + [last.(text := last.text + n.text)];
      } else {
        out := out + [n];
      }
    }
    assert nodes[..|nodes|] == nodes;
  }

  /** Trailing breaks render as nothing. */
  function WithoutTrailingBreaks(nodes: seq<Node>): (r: seq<Node>)
    ensures r <= nodes
  {
    if nodes != [] && nodes[|nodes| - 1].typ == HardBreak then WithoutTrailingBreaks(nodes[..|nodes| - 1]) else nodes
  }

  /** How deep the content of a sequence of nodes goes. */
  function Depth(nodes: seq<Node>): nat
    decreases nodes
  {
    if nodes == [] then 0 else MaxNat(1 + Depth(nodes[0].content), Depth(nodes[1..]))
  }

  lemma {:induction false} DepthConcat(a: seq<Node>, b: seq<Node>)
    ensures Depth(a + b) == MaxNat(Depth(a), Depth(b))
  {
    if a == [] {
      assert a + b == b;
    } else {
      assert (a + b)[1..] == a[1..] + b;
      DepthConcat(a[1..], b);
    }
  }

  lemma MergeIntoDepth(out: seq<Node>, n: Node)
    ensures Depth(MergeInto(out, n)) <= MaxNat(Depth(out), Depth([n]))
  {
    if out != [] && SameRun(out[|out| - 1], n) {
      var init, last := out[..|out| - 1], out[|out| - 1];
      var joined := last.(text := last.text + n.text);
      assert out == init + [last];
      DepthConcat(init, [last]);
      DepthConcat(init, [joined]);
      assert Depth([joined]) == Depth([last]);
    } else {
      DepthConcat(out, [n]);
    }
  }

  lemma {:induction false} MergedDepth(nodes: seq<Node>)
    ensures Depth(Merged(nodes)) <= Depth(nodes)
  {
    if nodes != [] {
      var init, last := nodes[..|nodes| - 1], nodes[|nodes| - 1];
      MergedDepth(init);
      MergeIntoDepth(Merged(init), last);
      assert nodes == init + [last];
      DepthConcat(init, [last]);
    }
  }

  lemma PrefixDepth(a: seq<Node>, b: seq<Node>)
    requires a <= b
    ensures Depth(a) <= Depth(b)
  {
    assert b == a + b[|a|..];
    DepthConcat(a, b[|a|..]);
  }

  // -------------------------------------------------------------- the renderer

  predicate HasMark(n: Node, m: MarkType) {
    exists k | k in n.marks :: k.typ == m
  }

  /** linkHref: the target of the first link mark. */
  function LinkHref(marks: seq<Mark>): string {
    if marks == [] then "" else if marks[0].typ == Link then marks[0].href else LinkHref(marks[1..])
  }

  function MdImage(n: Node): string {
    ImageOf(n.attrs.alt, n.attrs.src, n.attrs.title)
  }

  function Wrapped(on: bool, delim: string, s: string): string {
    if on then delim + s + delim else s
  }

  function Linked(href: string, s: string): string {
    if href == "" then s else "[" + s + "](" + (MdTarget(href, "") + ")")
  }

  /** The text of a run in its delimiters, in their fixed order. */
  function Delimited(n: Node, text: string): string {
    Wrapped(HasMark(n, Strike), "~~",
            Wrapped(HasMark(n, Italic), "*",
                    Wrapped(HasMark(n, Bold), "**",
                            if HasMark(n, Code) then SpanOf(text) else EscapeText(text))))
  }

  /** The text without the whitespace that moves outside the delimiters. */
  function Core(s: string): string {
    TrimBlanks(s)
  }

  function Lead(s: string): string {
    s[..|s| - |TrimLeft(s, IsBlank)|]
  }

  function Trail(s: string): string {
    TrimLeft(s, IsBlank)[|Core(s)|..]
  }

  /** The core does not touch whitespace, and nothing is lost around it. */
  lemma CoreSplits(s: string)
    ensures s == Lead(s) + Core(s) + Trail(s)
    ensures Core(s) != "" ==> !IsBlank(Core(s)[0]) && !IsBlank(Core(s)[|Core(s)| - 1])
  {
    var l := TrimLeft(s, IsBlank);
    assert l == Core(s) + Trail(s) && s == Lead(s) + l;
  }

  predicate Emphasized(n: Node) {
    HasMark(n, Bold) || HasMark(n, Italic) || HasMark(n, Strike)
  }

  function MdText(n: Node): string {
    if n.text == "" then ""
    else if !Emphasized(n) then Linked(LinkHref(n.marks), Delimited(n, n.text))
    else if Core(n.text) == "" then n.text
    else Linked(LinkHref(n.marks), Lead(n.text) + Delimited(n, Core(n.text)) + Trail(n.text))
  }

  function MdInline(nodes: seq<Node>, br: string): string
    decreases Depth(nodes), 1, 0
  {
    var merged := WithoutTrailingBreaks(Merged(nodes));
    MergedDepth(nodes);
    PrefixDepth(merged, Merged(nodes));
    MdPieces(merged, br)
  }

  function MdPieces(nodes: seq<Node>, br: string): string
    decreases Depth(nodes), 0, |nodes|
  {
    if nodes == [] then ""
    else
      var n := nodes[0];
      (match n.typ
       case TextRun => MdText(n)
       case HardBreak => br
       case Image => MdImage(n)
       case _ => EscapeText(n.text) + MdInline(n.content, br)) + MdPieces(nodes[1..], br)
  }

  // ------------------------------------------- a link behind an exclamation mark

  lemma {:induction false} EscapeBang(front: string)
    ensures EscapeText(front + "!") == EscapeText(front) + "!"
  {
    if front == "" {
      assert "" + "!" == "!";
    } else {
      assert (front + "!")[1..] == front[1..] + "!";
      EscapeBang(front[1..]);
      Regroup(if Special(front[0]) then ['\\', front[0]] else [front[0]], EscapeText(front[1..]), "!");
    }
  }

  lemma PlainRun(n: Node)
    requires n.typ == TextRun && n.text != "" && n.marks == []
    ensures MdText(n) == EscapeText(n.text)
  {
    assert !Emphasized(n) && !HasMark(n, Code);
  }

  lemma LinkRun(n: Node)
    requires n.typ == TextRun && n.text != "" && |n.marks| == 1 && n.marks[0].typ == Link && n.marks[0].href != ""
    ensures MdText(n) == "[" + EscapeText(n.text) + "](" + (MdTarget(n.marks[0].href, "") + ")")
  {
    assert !Emphasized(n) && !HasMark(n, Code);
  }

  lemma TwoRunsStay(a: Node, b: Node)
    requires a.typ == TextRun && b.typ == TextRun && a.marks != b.marks
    ensures WithoutTrailingBreaks(Merged([a, b])) == [a, b]
  {
    assert [a][..0] == [] && [a, b][..1] == [a];
    assert Merged([a]) == [a];
  }

  lemma TwoPieces(a: Node, b: Node, br: string)
    requires a.typ == TextRun && b.typ == TextRun
    ensures MdPieces([a, b], br) == MdText(a) + MdText(b)
  {
    assert [a, b][1..] == [b] && [b][1..] == [];
    assert MdPieces([b], br) == MdText(b) + MdPieces([], br) == MdText(b);
  }

  lemma BangRun(a: Node, front: string)
    requires a.typ == TextRun && a.text == front + "!" && a.marks == []
    ensures MdText(a) == EscapeText(front) + "!"
  {
    EscapeBang(front);
    PlainRun(a);
  }

  lemma BangJoins(front: string, text: string, target: string)
    ensures front + "!" + ("[" + text + "](" + target) == front + ("![" + text + "](" + target)
  {
  }

  lemma BangThenLink(front: string, text: string, href: string)
    ensures EscapeText(front) + "!" + ("[" + EscapeText(text) + "](" + (MdTarget(href, "") + ")"))
         == EscapeText(front) + ImageOf(text, href, "")
  {
    BangJoins(EscapeText(front), EscapeText(text), MdTarget(href, "") + ")");
  }

  /** Nothing keeps an exclamation mark apart from a link: the two are written exactly
      as an image is, and read as one. */
  lemma BangMakesImage(a: Node, b: Node, front: string, br: string)
    requires a.typ == TextRun && a.text == front + "!" && a.marks == []
    requires b.typ == TextRun && b.text != "" && |b.marks| == 1 && b.marks[0].typ == Link && b.marks[0].href != ""
    ensures MdInline([a, b], br) == EscapeText(front) + ImageOf(b.text, b.marks[0].href, "")
  {
    TwoRunsStay(a, b);
    TwoPieces(a, b, br);
    BangRun(a, front);
    LinkRun(b);
    BangThenLink(front, b.text, b.marks[0].href);
  }

  function Clamp(n: int, low: int, high: int): int {
    if n < low then low else if n > high then high else n
  }

  /** The marker of item i of a list. */
  function Marker(list: Node, i: nat): string {
    if list.typ == OrderedList then Itoa(Clamp(list.attrs.start, 1, 999_999_999) + i) + ". " else "- "
  }

  /** A marker is one a reader knows exactly while the number has nine digits. */
  lemma MarkerIsRead(list: Node, i: nat)
    ensures IsMarker(Marker(list, i)) <==>
            list.typ != OrderedList || Clamp(list.attrs.start, 1, 999_999_999) + i <= 999_999_999
  {
    if list.typ == OrderedList {
      var n: nat := Clamp(list.attrs.start, 1, 999_999_999) + i;
      var marker := Itoa(n) + ". ";
      ItoaDigits(n, 9);
      BillionHasTenDigits();
      assert forall j | 0 <= j < |Itoa(n)| :: marker[j] == Itoa(n)[j];
      assert marker[0] == Itoa(n)[0];
    }
  }

  lemma BillionHasTenDigits()
    ensures PowerOfTen(9) == 1_000_000_000
  {
    assert PowerOfTen(5) == 100_000;
  }

  /** The non-empty blocks of a sequence of nodes. */
  function MdBlockList(nodes: seq<Node>): seq<string>
    decreases nodes, 0
  {
    if nodes == [] then []
    else
      var b := MdBlock(nodes[0]);
      (if b != "" then [b] else []) + MdBlockList(nodes[1..])
  }

  function MdBlocks(nodes: seq<Node>): string
    decreases nodes, 1
  {
    Join(MdBlockList(nodes), "\n\n")
  }

  function MdItems(list: Node, i: nat, items: seq<Node>): seq<string>
    decreases items, 0
  {
    if items == [] then []
    else [ItemOf(Marker(list, i), MdBlocks(items[0].content))] + MdItems(list, i + 1, items[1..])
  }

  /** mdBlock. A run at block level renders as a line of its own, and a break there,
      having nothing after it, as nothing. */
  function MdBlock(n: Node): string
    decreases n, 0
  {
    match n.typ
    case Paragraph => LineStartsEscaped(MdInline(n.content, "\\\n"))
    case Heading =>
      var text := MdInline(n.content, " ");
      if text == "" then "" else HeadingOf(Clamp(n.attrs.level, 1, 6), text)
    case BulletList => Join(MdItems(n, 0, n.content), "\n")
    case OrderedList => Join(MdItems(n, 0, n.content), "\n")
    case CodeBlock => CodeBlockOf(n)
    case Blockquote => QuoteOf(MdBlocks(n.content))
    case HorizontalRule => "---"
    case Image => MdImage(n)
    case TextRun => LineStartsEscaped(MdText(n))
    case HardBreak => ""
    case _ =>
      var own := LineStartsEscaped(EscapeText(n.text));
      var inner := MdBlocks(n.content);
      Join(Parts(own, inner), "\n\n")
  }

  function RenderMarkdown(root: Node): string {
    TrimSpace(MdBlocks(root.content))
  }

  // ------------------------------------------------------- runs after merging

  /** No two runs with the same marks stand next to each other. */
  predicate RunsApart(nodes: seq<Node>) {
    forall i | 0 <= i < |nodes| - 1 :: !SameRun(nodes[i], nodes[i + 1])
  }

  /** What a reader of inline content sees: characters with their marks, and the
      nodes that are no text. */
  datatype Inline = Char(c: char, marks: seq<Mark>) | Whole(n: Node)

  function Styled(text: string, marks: seq<Mark>): seq<Inline> {
    seq(|text|, i requires 0 <= i < |text| => Char(text[i], marks))
  }

  function Flat(nodes: seq<Node>): seq<Inline> {
    if nodes == [] then []
    else (if nodes[0].typ == TextRun then Styled(nodes[0].text, nodes[0].marks)
        else [Whole(nodes[0])]) + Flat(nodes[1..])
  }

  lemma {:induction false} FlatConcat(a: seq<Node>, b: seq<Node>)
    ensures Flat(a + b) == Flat(a) + Flat(b)
  {
    if a == [] {
      assert a + b == b;
    } else {
      assert (a + b)[1..] == a[1..] + b;
      FlatConcat(a[1..], b);
    }
  }

  lemma JoinedIsFlat(last: Node, n: Node)
    requires SameRun(last, n)
    ensures Flat([last.(text := last.text + n.text)]) == Flat([last]) + Flat([n])
  {
    var joined := last.(text := last.text + n.text);
    assert Styled(joined.text, last.marks) == Styled(last.text, last.marks) + Styled(n.text, last.marks);
    assert Flat([joined]) == Styled(joined.text, joined.marks) + Flat([]);
    assert Flat([last]) == Styled(last.text, last.marks) + Flat([]);
    assert Flat([n]) == Styled(n.text, n.marks) + Flat([]);
  }

  lemma MergeIntoIsFlat(out: seq<Node>, n: Node)
    ensures Flat(MergeInto(out, n)) == Flat(out) + Flat([n])
  {
    if out != [] && SameRun(out[|out| - 1], n) {
      var init, last := out[..|out| - 1], out[|out| - 1];
      assert out == init + [last];
      FlatConcat(init, [last]);
      FlatConcat(init, [last.(text := last.text + n.text)]);
      JoinedIsFlat(last, n);
    } else {
      FlatConcat(out, [n]);
    }
  }

  /** Merging runs changes no character, no mark of one and no other node, and leaves
      no two runs that a reader would see with doubled delimiters. */
  lemma {:induction false} MergedRuns(nodes: seq<Node>)
    ensures RunsApart(Merged(nodes)) && Flat(Merged(nodes)) == Flat(nodes)
  {
    if nodes != [] {
      var init, last := nodes[..|nodes| - 1], nodes[|nodes| - 1];
      MergedRuns(init);
      MergeIntoIsFlat(Merged(init), last);
      assert nodes == init + [last];
      FlatConcat(init, [last]);
    }
  }
}
