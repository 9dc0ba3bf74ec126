/** The markdown of a document keeps its text: every letter of it, in order. */
module MarkdownKeeps {
  import opened Body
  import opened Text
  import opened CodeMarkup
  import opened Escapes
  import opened Containers
  import opened Links
  import opened Headings
  import opened PlainText
  import opened Markdown

  // ------------------------------------------------------------- subsequences

  /** b with some characters left out is a. */
  predicate Subseq(a: string, b: string)
    decreases |b|
  {
    a == "" || (b != "" && if a[0] == b[0] then Subseq(a[1..], b[1..]) else Subseq(a, b[1..]))
  }

  lemma {:induction false} SubPrepend(c: char, a: string, b: string)
    requires Subseq(a, b)
    ensures Subseq(a, [c] + b)
    decreases |b|, 1
  {
    assert ([c] + b)[1..] == b;
    if a != "" && a[0] == c { SubTail(a, b); }
  }

  lemma {:induction false} SubTail(a: string, b: string)
    requires Subseq(a, b) && a != ""
    ensures Subseq(a[1..], b)
    decreases |b|, 0
  {
    if a[0] != b[0] { SubTail(a, b[1..]); }
    SubPrepend(b[0], a[1..], b[1..]);
    assert [b[0]] + b[1..] == b;
  }

  lemma {:induction false} SubConcat(a: string, b: string, c: string, d: string)
    requires Subseq(a, b) && Subseq(c, d)
    ensures Subseq(a + c, b + d)
    decreases |b|
  {
    if b == "" {
      assert a + c == c && b + d == d;
    } else {
      assert (b + d)[1..] == b[1..] + d;
      if a == "" {
        SubConcat(a, b[1..], c, d);
        assert a + c == c;
        SubPrepend(b[0], c, b[1..] + d);
        assert [b[0]] + (b[1..] + d) == b + d;
      } else if a[0] == b[0] {
        assert (a + c)[1..] == a[1..] + c;
        SubConcat(a[1..], b[1..], c, d);
      } else {
        SubConcat(a, b[1..], c, d);
      }
    }
  }

  lemma {:induction false} SubTrans(a: string, b: string, c: string)
    requires Subseq(a, b) && Subseq(b, c)
    ensures Subseq(a, c)
    decreases |c|
  {
    if a != "" {
      if b[0] != c[0] {
        SubTrans(a, b, c[1..]);
        SubPrepend(c[0], a, c[1..]);
        assert [c[0]] + c[1..] == c;
      } else if a[0] == b[0] {
        SubTrans(a[1..], b[1..], c[1..]);
      } else {
        SubTrans(a, b[1..], c[1..]);
      }
    }
  }

  lemma {:induction false} SubSame(a: string)
    ensures Subseq(a, a)
  {
    if a != "" { SubSame(a[1..]); }
  }

  lemma LettersStep(s: string)
    requires s != ""
    ensures Letters(s) == (if IsSpace(s[0]) then Letters(s[1..]) else [s[0]] + Letters(s[1..]))
  {
  }

  lemma SubCons(c: char, a: string, b: string)
    requires Subseq(a, b)
    ensures Subseq([c] + a, [c] + b)
  {
    assert ([c] + a)[1..] == a && ([c] + b)[1..] == b;
  }

  lemma {:induction false} SubLetters(a: string, b: string)
    requires Subseq(a, b)
    ensures Subseq(Letters(a), Letters(b))
    decreases |b|
  {
    if a != "" {
      LettersStep(b);
      if a[0] == b[0] {
        LettersStep(a);
        SubLetters(a[1..], b[1..]);
        SubCons(a[0], Letters(a[1..]), Letters(b[1..]));
      } else {
        SubLetters(a, b[1..]);
        SubPrepend(b[0], Letters(a), Letters(b[1..]));
      }
    }
  }

  /** Every letter of `all` is in `out`, in the same order. */
  predicate Keeps(all: string, out: string) {
    Subseq(Letters(all), Letters(out))
  }

  lemma KeepsAppend(a: string, b: string, c: string, d: string)
    requires Keeps(a, b) && Keeps(c, d)
    ensures Keeps(a + c, b + d)
  {
    SubConcat(Letters(a), Letters(b), Letters(c), Letters(d));
    LettersConcat(a, c);
    LettersConcat(b, d);
  }

  lemma KeepsAround(before: string, a: string, b: string, after: string)
    requires Keeps(a, b)
    ensures Keeps(a, before + b + after)
  {
    KeepsAppend("", before, a, b);
    assert "" + a == a;
    KeepsAppend(a, before + b, "", after);
    assert a + "" == a;
  }

  lemma KeepsTrans(a: string, b: string, c: string)
    requires Keeps(a, b) && Keeps(b, c)
    ensures Keeps(a, c)
  {
    SubTrans(Letters(a), Letters(b), Letters(c));
  }

  lemma KeepsSame(a: string)
    ensures Keeps(a, a)
  {
    SubSame(Letters(a));
  }

  lemma {:induction false} JoinKeeps(a: seq<string>, b: seq<string>, sep: string)
    requires |a| == |b| && forall i | 0 <= i < |a| :: Keeps(a[i], b[i])
    ensures Keeps(Join(a, sep), Join(b, sep))
  {
    if |a| > 1 {
      JoinKeeps(a[1..], b[1..], sep);
      KeepsSame(sep);
      KeepsAppend(a[0], b[0], sep, sep);
      KeepsAppend(a[0] + sep, b[0] + sep, Join(a[1..], sep), Join(b[1..], sep));
    }
  }

  // ---------------------------------------------------------------- the pieces

  lemma {:induction false} EscapeIsSubseq(s: string)
    ensures Subseq(s, EscapeText(s))
  {
    if s != "" {
      EscapeIsSubseq(s[1..]);
      SubSame([s[0]]);
      SubPrepend('\\', [s[0]], [s[0]]);
      var e := if Special(s[0]) then ['\\', s[0]] else [s[0]];
      assert ['\\'] + [s[0]] == ['\\', s[0]];
      SubConcat([s[0]], e, s[1..], EscapeText(s[1..]));
      assert [s[0]] + s[1..] == s;
    }
  }

  lemma EscapeKeeps(s: string)
    ensures Keeps(s, EscapeText(s))
  {
    EscapeIsSubseq(s);
    SubLetters(s, EscapeText(s));
  }

  lemma SpanKeeps(s: string)
    ensures Keeps(s, SpanOf(s))
  {
    var delim := Ticks(LongestRun(s) + 1);
    KeepsSame(s);
    if Padded(s) { KeepsAround(" ", s, s, " "); }
    KeepsAround(delim, s, Inner(s), delim);
  }

  lemma WrappedKeeps(on: bool, delim: string, a: string, s: string)
    requires Keeps(a, s)
    ensures Keeps(a, Wrapped(on, delim, s))
  {
    KeepsAround(delim, a, s, delim);
  }

  lemma DelimitedKeeps(n: Node, text: string)
    ensures Keeps(text, Delimited(n, text))
  {
    var s := if HasMark(n, Code) then SpanOf(text) else EscapeText(text);
    SpanKeeps(text);
    EscapeKeeps(text);
    WrappedKeeps(HasMark(n, Bold), "**", text, s);
    var bold := Wrapped(HasMark(n, Bold), "**", s);
    WrappedKeeps(HasMark(n, Italic), "*", text, bold);
    WrappedKeeps(HasMark(n, Strike), "~~", text, Wrapped(HasMark(n, Italic), "*", bold));
  }

  lemma LinkedKeeps(href: string, a: string, s: string)
    requires Keeps(a, s)
    ensures Keeps(a, Linked(href, s))
  {
    var target := "](" + (MdTarget(href, "") + ")");
    KeepsAround("[", a, s, target);
    assert "[" + s + target == "[" + s + "](" + (MdTarget(href, "") + ")");
  }

  lemma BetweenKeeps(lead: string, a: string, b: string, trail: string)
    requires Keeps(a, b)
    ensures Keeps(lead + a + trail, lead + b + trail)
  {
    KeepsSame(lead);
    KeepsSame(trail);
    KeepsAppend(lead, lead, a, b);
    KeepsAppend(lead + a, lead + b, trail, trail);
  }

  /** Marks add delimiters around a run and never take anything out of it. */
  lemma MdTextKeeps(n: Node)
    ensures Keeps(n.text, MdText(n))
  {
    var href, core := LinkHref(n.marks), Core(n.text);
    KeepsSame(n.text);
    DelimitedKeeps(n, n.text);
    LinkedKeeps(href, n.text, Delimited(n, n.text));
    DelimitedKeeps(n, core);
    CoreSplits(n.text);
    BetweenKeeps(Lead(n.text), core, Delimited(n, core), Trail(n.text));
    LinkedKeeps(href, n.text, Lead(n.text) + Delimited(n, core) + Trail(n.text));
  }

  lemma ImageKeeps(n: Node)
    ensures Keeps(n.attrs.alt, MdImage(n))
  {
    var alt := EscapeText(n.attrs.alt);
    var target := "](" + (MdTarget(n.attrs.src, n.attrs.title) + ")");
    EscapeKeeps(n.attrs.alt);
    KeepsAround("![", n.attrs.alt, alt, target);
    assert "![" + alt + target == MdImage(n);
  }

  lemma InsertionKeeps(p: string, x: string, s: string)
    ensures Keeps(p + s, p + x + s)
  {
    KeepsSame(p);
    KeepsSame(s);
    KeepsAppend(p, p, "", x);
    assert p + "" == p;
    KeepsAppend(p, p + x, s, s);
  }

  lemma LineStartKeeps(line: string)
    ensures Keeps(line, EscapeLineStart(line))
  {
    var at := MarkerAt(line);
    KeepsSame(line);
    if at != -1 {
      InsertionKeeps(line[..at], "\\", line[at..]);
      assert line[..at] + line[at..] == line;
    }
  }

  lemma LineStartsKeep(s: string)
    ensures Keeps(s, LineStartsEscaped(s))
  {
    var lines := Split(s, '\n');
    forall i | 0 <= i < |lines| ensures Keeps(lines[i], EscapeLines(lines)[i]) {
      LineStartKeeps(lines[i]);
    }
    JoinKeeps(lines, EscapeLines(lines), "\n");
    JoinSplit(s, '\n');
  }

  lemma ItemLineKeeps(marker: string, i: nat, line: string)
    ensures Keeps(line, ItemLine(marker, i, line))
  {
    KeepsSame(line);
    if i == 0 {
      KeepsAppend("", marker, line, line);
      assert "" + line == line;
      TrimRightKeepsLetters(marker + line, IsSpaceChar);
    } else {
      KeepsAppend("", Spaces(|marker|), line, line);
      assert "" + line == line;
    }
  }

  lemma ItemKeeps(marker: string, body: string)
    ensures Keeps(body, ItemOf(marker, body))
  {
    var lines := Split(body, '\n');
    var item := ItemLines(marker, 0, lines);
    forall i | 0 <= i < |lines| ensures Keeps(lines[i], item[i]) {
      ItemLineKeeps(marker, i, lines[i]);
    }
    JoinKeeps(lines, item, "\n");
    JoinSplit(body, '\n');
  }

  lemma QuotedLineKeeps(line: string)
    ensures Keeps(line, QuotedLine(line))
  {
    KeepsSame(line);
    KeepsAppend("", "> ", line, line);
    assert "" + line == line;
  }

  lemma QuoteKeeps(body: string)
    ensures Keeps(body, QuoteOf(body))
  {
    var lines := Split(body, '\n');
    forall i | 0 <= i < |lines| ensures Keeps(lines[i], QuotedLines(lines)[i]) {
      QuotedLineKeeps(lines[i]);
    }
    JoinKeeps(lines, QuotedLines(lines), "\n");
    JoinSplit(body, '\n');
  }

  // ------------------------------------------------------------ inline content

  lemma {:induction false} AllTextsConcat(a: seq<Node>, b: seq<Node>)
    ensures AllTexts(a + b) == AllTexts(a) + AllTexts(b)
  {
    if a == [] {
      assert a + b == b;
    } else {
      assert (a + b)[1..] == a[1..] + b;
      AllTextsConcat(a[1..], b);
    }
  }

  lemma {:induction false} WellKeptConcat(a: seq<Node>, b: seq<Node>)
    ensures WellKept(a + b) <==> WellKept(a) && WellKept(b)
  {
    if a == [] {
      assert a + b == b;
    } else {
      assert (a + b)[1..] == a[1..] + b;
      WellKeptConcat(a[1..], b);
    }
  }

  lemma OneText(n: Node)
    ensures AllTexts([n]) == AllText(n) && (WellKept([n]) <==> NodeKept(n) && WellKept(n.content))
  {
    assert [n][1..] == [];
    assert AllTexts([n]) == AllText(n) + AllTexts([]);
  }

  /** The text of a well-kept node. */
  lemma TextOf(n: Node)
    requires NodeKept(n)
    ensures n.typ == Image ==> AllText(n) == n.attrs.alt
    ensures n.typ != Image ==> AllText(n) == n.text + AllTexts(n.content)
    ensures n.typ == TextRun ==> AllText(n) == n.text
    ensures n.typ == HardBreak || n.typ == HorizontalRule ==> AllText(n) == ""
    ensures n.text == "" && n.typ != Image ==> AllText(n) == AllTexts(n.content)
  {
  }

  lemma JoinedKept(last: Node, n: Node)
    requires NodeKept(last) && NodeKept(n) && SameRun(last, n)
    ensures var joined := last.(text := last.text + n.text);
            NodeKept(joined) && joined.content == last.content && AllText(joined) == AllText(last) + AllText(n)
  {
    TextOf(last);
    TextOf(n);
    TextOf(last.(text := last.text + n.text));
  }

  lemma AppendedKept(out: seq<Node>, n: Node)
    requires WellKept(out) && NodeKept(n) && WellKept(n.content)
    ensures WellKept(out + [n]) && AllTexts(out + [n]) == AllTexts(out) + AllText(n)
  {
    WellKeptConcat(out, [n]);
    AllTextsConcat(out, [n]);
    OneText(n);
  }

  lemma LastKept(init: seq<Node>, last: Node)
    requires WellKept(init + [last])
    ensures WellKept(init) && NodeKept(last) && WellKept(last.content)
    ensures AllTexts(init + [last]) == AllTexts(init) + AllText(last)
  {
    WellKeptConcat(init, [last]);
    AllTextsConcat(init, [last]);
    OneText(last);
  }

  lemma ReplacedKept(init: seq<Node>, last: Node, joined: Node, more: string)
    requires WellKept(init + [last]) && NodeKept(joined) && joined.content == last.content
    requires AllText(joined) == AllText(last) + more
    ensures WellKept(init + [joined]) && AllTexts(init + [joined]) == AllTexts(init + [last]) + more
  {
    LastKept(init, last);
    AppendedKept(init, joined);
    Regroup(AllTexts(init), AllText(last), more);
  }

  lemma MergeIntoKept(out: seq<Node>, n: Node)
    requires WellKept(out) && NodeKept(n) && WellKept(n.content)
    ensures WellKept(MergeInto(out, n)) && AllTexts(MergeInto(out, n)) == AllTexts(out) + AllText(n)
  {
    if out != [] && SameRun(out[|out| - 1], n) {
      var init, last := out[..|out| - 1], out[|out| - 1];
      assert out == init + [last];
      LastKept(init, last);
      JoinedKept(last, n);
      ReplacedKept(init, last, last.(text := last.text + n.text), AllText(n));
    } else {
      AppendedKept(out, n);
    }
  }

  lemma {:induction false} MergedKept(nodes: seq<Node>)
    requires WellKept(nodes)
    ensures WellKept(Merged(nodes)) && AllTexts(Merged(nodes)) == AllTexts(nodes)
  {
    if nodes != [] {
      var init, last := nodes[..|nodes| - 1], nodes[|nodes| - 1];
      assert nodes == init + [last];
      LastKept(init, last);
      MergedKept(init);
      MergeIntoKept(Merged(init), last);
    }
  }

  lemma {:induction false} TrailingBreaksHoldNothing(nodes: seq<Node>)
    requires WellKept(nodes)
    ensures var r := WithoutTrailingBreaks(nodes); WellKept(r) && AllTexts(r) == AllTexts(nodes)
  {
    if nodes != [] && nodes[|nodes| - 1].typ == HardBreak {
      var init, last := nodes[..|nodes| - 1], nodes[|nodes| - 1];
      assert nodes == init + [last];
      LastKept(init, last);
      TextOf(last);
      TrailingBreaksHoldNothing(init);
    }
  }

  lemma {:induction false} InlineKeeps(nodes: seq<Node>, br: string)
    requires WellKept(nodes)
    ensures Keeps(AllTexts(nodes), MdInline(nodes, br))
    decreases Depth(nodes), 1, 0
  {
    var merged := WithoutTrailingBreaks(Merged(nodes));
    MergedDepth(nodes);
    PrefixDepth(merged, Merged(nodes));
    MergedKept(nodes);
    TrailingBreaksHoldNothing(Merged(nodes));
    PiecesKeep(merged, br);
  }

  lemma OtherPieceKeeps(n: Node, br: string)
    requires NodeKept(n) && n.typ != Image && Keeps(AllTexts(n.content), MdInline(n.content, br))
    ensures Keeps(AllText(n), EscapeText(n.text) + MdInline(n.content, br))
  {
    TextOf(n);
    EscapeKeeps(n.text);
    KeepsAppend(n.text, EscapeText(n.text), AllTexts(n.content), MdInline(n.content, br));
  }

  lemma LeafPieceKeeps(n: Node, br: string)
    requires NodeKept(n)
    ensures n.typ == TextRun ==> Keeps(AllText(n), MdText(n))
    ensures n.typ == HardBreak ==> Keeps(AllText(n), br)
    ensures n.typ == Image ==> Keeps(AllText(n), MdImage(n))
  {
    TextOf(n);
    MdTextKeeps(n);
    ImageKeeps(n);
  }

  lemma {:induction false} PiecesKeep(nodes: seq<Node>, br: string)
    requires WellKept(nodes)
    ensures Keeps(AllTexts(nodes), MdPieces(nodes, br))
    decreases Depth(nodes), 0, |nodes|
  {
    if nodes != [] {
      var n, tail := nodes[0], nodes[1..];
      PiecesKeep(tail, br);
      if n.typ == TextRun {
        LeafPieceKeeps(n, br);
        KeepsAppend(AllText(n), MdText(n), AllTexts(tail), MdPieces(tail, br));
      } else if n.typ == HardBreak {
        LeafPieceKeeps(n, br);
        KeepsAppend(AllText(n), br, AllTexts(tail), MdPieces(tail, br));
      } else if n.typ == Image {
        LeafPieceKeeps(n, br);
        KeepsAppend(AllText(n), MdImage(n), AllTexts(tail), MdPieces(tail, br));
      } else {
        InlineKeeps(n.content, br);
        OtherPieceKeeps(n, br);
        KeepsAppend(AllText(n), EscapeText(n.text) + MdInline(n.content, br), AllTexts(tail), MdPieces(tail, br));
      }
    }
  }

  // -------------------------------------------------------------------- blocks

  lemma {:induction false} BlocksKeep(nodes: seq<Node>)
    requires WellKept(nodes)
    ensures Keeps(AllTexts(nodes), Concat(MdBlockList(nodes))) && Keeps(AllTexts(nodes), MdBlocks(nodes))
    decreases nodes, 1
  {
    JoinKeepsLetters(MdBlockList(nodes), "\n\n");
    if nodes != [] {
      var b, tail := MdBlock(nodes[0]), MdBlockList(nodes[1..]);
      BlockKeeps(nodes[0]);
      BlocksKeep(nodes[1..]);
      KeepsAppend(AllText(nodes[0]), b, AllTexts(nodes[1..]), Concat(tail));
      if b != "" {
        assert ([b] + tail)[1..] == tail;
      } else {
        assert [] + tail == tail && b + Concat(tail) == Concat(tail);
      }
    }
  }

  lemma {:induction false} ItemsKeep(list: Node, i: nat, items: seq<Node>)
    requires WellKept(items) && forall item | item in items :: item.typ == ListItem
    ensures Keeps(AllTexts(items), Concat(MdItems(list, i, items)))
    decreases items, 1
  {
    if items != [] {
      var body := MdBlocks(items[0].content);
      var item := ItemOf(Marker(list, i), body);
      var tail := MdItems(list, i + 1, items[1..]);
      BlocksKeep(items[0].content);
      ItemKeeps(Marker(list, i), body);
      KeepsTrans(AllTexts(items[0].content), body, item);
      assert AllText(items[0]) == AllTexts(items[0].content);
      ItemsKeep(list, i + 1, items[1..]);
      KeepsAppend(AllText(items[0]), item, AllTexts(items[1..]), Concat(tail));
      assert ([item] + tail)[1..] == tail;
    }
  }

  lemma CodeKeeps(n: Node)
    requires n.typ == CodeBlock && LostInRaw(n) == 0
    ensures Keeps(AllText(n), CodeBlockOf(n))
  {
    var text := RawText(n);
    RawAccounts(n);
    KeepsSame(text);
    KeepsAround("", text, text, "\n");
    assert "" + text + "\n" == text + "\n";
    var opening := Fence(text) + Info(n.attrs.language) + "\n";
    KeepsAround(opening, text, Terminated(text), Fence(text));
  }

  lemma LinesKeep(all: string, s: string)
    requires Keeps(all, s)
    ensures Keeps(all, LineStartsEscaped(s))
  {
    LineStartsKeep(s);
    KeepsTrans(all, s, LineStartsEscaped(s));
  }

  lemma UnknownKeeps(n: Node, inner: string)
    requires AllText(n) == n.text + AllTexts(n.content) && Keeps(AllTexts(n.content), inner)
    ensures Keeps(AllText(n), Join(Parts(LineStartsEscaped(EscapeText(n.text)), inner), "\n\n"))
  {
    var own := LineStartsEscaped(EscapeText(n.text));
    EscapeKeeps(n.text);
    LinesKeep(n.text, EscapeText(n.text));
    KeepsAppend(n.text, own, AllTexts(n.content), inner);
    JoinKeepsLetters(Parts(own, inner), "\n\n");
    PartsConcat(own, inner);
  }

  lemma HeadingKeeps(n: Node, all: string)
    requires n.typ == Heading && Keeps(all, MdInline(n.content, " "))
    ensures Keeps(all, MdBlock(n))
  {
    var text := MdInline(n.content, " ");
    if text != "" {
      KeepsAround(Hashes(Clamp(n.attrs.level, 1, 6)) + " ", all, text, "");
      assert HeadingOf(Clamp(n.attrs.level, 1, 6), text) == Hashes(Clamp(n.attrs.level, 1, 6)) + " " + text + "";
    }
  }

  /** The blocks without blocks inside. */
  lemma SimpleBlockKeeps(n: Node)
    requires NodeKept(n) && WellKept(n.content)
    requires n.typ == Paragraph || n.typ == Heading || n.typ == CodeBlock || IsLeaf(n.typ)
    ensures Keeps(AllText(n), MdBlock(n))
  {
    TextOf(n);
    if n.typ == Paragraph {
      InlineKeeps(n.content, "\\\n");
      LinesKeep(AllText(n), MdInline(n.content, "\\\n"));
    } else if n.typ == Heading {
      InlineKeeps(n.content, " ");
      HeadingKeeps(n, AllText(n));
    } else if n.typ == CodeBlock {
      KeptRaws(n.content);
      CodeKeeps(n);
    } else if n.typ == Image {
      ImageKeeps(n);
    } else if n.typ == TextRun {
      MdTextKeeps(n);
      LinesKeep(AllText(n), MdText(n));
    }
  }

  lemma ListKeeps(n: Node)
    requires NodeKept(n) && (n.typ == BulletList || n.typ == OrderedList)
    requires Keeps(AllTexts(n.content), Concat(MdItems(n, 0, n.content)))
    ensures Keeps(AllText(n), MdBlock(n))
  {
    TextOf(n);
    JoinKeepsLetters(MdItems(n, 0, n.content), "\n");
  }

  lemma QuotedKeeps(n: Node)
    requires NodeKept(n) && n.typ == Blockquote && Keeps(AllTexts(n.content), MdBlocks(n.content))
    ensures Keeps(AllText(n), MdBlock(n))
  {
    var inner := MdBlocks(n.content);
    TextOf(n);
    QuoteKeeps(inner);
    KeepsTrans(AllText(n), inner, QuoteOf(inner));
  }

  lemma TransparentBlock(n: Node)
    requires n.typ == Doc || n.typ == ListItem || n.typ.Other?
    ensures MdBlock(n) == Join(Parts(LineStartsEscaped(EscapeText(n.text)), MdBlocks(n.content)), "\n\n")
  {
  }

  lemma ContainerKeeps(n: Node)
    requires NodeKept(n) && (n.typ == Doc || n.typ == ListItem || n.typ.Other?)
    requires Keeps(AllTexts(n.content), MdBlocks(n.content))
    ensures Keeps(AllText(n), MdBlock(n))
  {
    TextOf(n);
    UnknownKeeps(n, MdBlocks(n.content));
    TransparentBlock(n);
  }

  lemma {:induction false} BlockKeeps(n: Node)
    requires NodeKept(n) && WellKept(n.content)
    ensures Keeps(AllText(n), MdBlock(n))
    decreases n, 0
  {
    if n.typ == Paragraph || n.typ == Heading || n.typ == CodeBlock || IsLeaf(n.typ) {
      SimpleBlockKeeps(n);
    } else if n.typ == BulletList || n.typ == OrderedList {
      ItemsKeep(n, 0, n.content);
      ListKeeps(n);
    } else {
      BlocksKeep(n.content);
      if n.typ == Blockquote { QuotedKeeps(n); } else { ContainerKeeps(n); }
    }
  }

  /** No text of an editor document is lost in its markdown: every letter of its
      texts and image descriptions is there, in document order. */
  lemma MarkdownLosesNothing(root: Node)
    requires WellKept(root.content)
    ensures Keeps(AllTexts(root.content), RenderMarkdown(root))
  {
    BlocksKeep(root.content);
    TrimSpaceKeepsLetters(MdBlocks(root.content));
  }
}
