/** How the flat rendering keeps texts apart: its words are the words of the texts of
    the document, blocks stand apart by blank lines, and list items and hard breaks by
    line breaks. */
module PlainLayout {
  import opened Body
  import opened Text
  import opened PlainText

  // -------------------------------------------------------------------- words

  predicate NotSpace(c: char) {
    !IsSpace(c)
  }

  /** The words of a text, in order, without the whitespace between them. */
  function Words(s: string): seq<string>
    decreases |s|
  {
    if s == "" then []
    else if IsSpace(s[0]) then Words(s[1..])
    else [s[..Leading(s, NotSpace)]] + Words(s[Leading(s, NotSpace)..])
  }

  lemma LeadingIs(s: string, drop: char -> bool, n: nat)
    requires n <= |s| && (forall i | 0 <= i < n :: drop(s[i])) && (n < |s| ==> !drop(s[n]))
    ensures Leading(s, drop) == n
  {
  }

  /** Whitespace ends a word, however much of it there is. */
  lemma {:induction false} WordsApart(a: string, space: char, b: string)
    requires IsSpace(space)
    ensures Words(a + ([space] + b)) == Words(a) + Words(b)
    decreases |a|
  {
    var s := a + ([space] + b);
    if a == "" {
      assert s == [space] + b && s[1..] == b;
    } else if IsSpace(a[0]) {
      assert s[1..] == a[1..] + ([space] + b);
      WordsApart(a[1..], space, b);
    } else {
      WordEnds(a, space, b);
      WordsApart(a[Leading(a, NotSpace)..], space, b);
    }
  }

  lemma WordEnds(a: string, space: char, b: string)
    requires IsSpace(space)
    ensures var s, n := a + ([space] + b), Leading(a, NotSpace);
            Leading(s, NotSpace) == n && s[..n] == a[..n] && s[n..] == a[n..] + ([space] + b)
  {
    var s, n := a + ([space] + b), Leading(a, NotSpace);
    assert forall i | 0 <= i < n :: s[i] == a[i];
    assert s[n] == if n < |a| then a[n] else space;
    LeadingIs(s, NotSpace, n);
  }

  lemma {:induction false} SpaceHasNoWords(s: string)
    requires forall i | 0 <= i < |s| :: IsSpace(s[i])
    ensures Words(s) == []
  {
    if s != "" { SpaceHasNoWords(s[1..]); }
  }

  /** Texts set apart by whitespace keep their words. */
  lemma WordsOfThree(a: string, sep: string, b: string)
    requires sep != "" && forall i | 0 <= i < |sep| :: IsSpace(sep[i])
    ensures Words(a + sep + b) == Words(a) + Words(b)
  {
    var rest := sep[1..];
    assert a + sep + b == a + ([sep[0]] + (rest + b));
    WordsApart(a, sep[0], rest + b);
    SpaceAhead(rest, b);
  }

  lemma {:induction false} SpaceAhead(space: string, b: string)
    requires forall i | 0 <= i < |space| :: IsSpace(space[i])
    ensures Words(space + b) == Words(b)
  {
    if space == "" {
      assert space + b == b;
    } else {
      assert (space + b)[1..] == space[1..] + b;
      SpaceAhead(space[1..], b);
    }
  }

  lemma SpaceBehind(a: string, space: string)
    requires forall i | 0 <= i < |space| :: IsSpace(space[i])
    ensures Words(a + space) == Words(a)
  {
    if space == "" {
      assert a + space == a;
    } else {
      WordsOfThree(a, space, "");
      assert a + space + "" == a + space;
    }
  }

  /** Replacing whitespace by whitespace keeps the words. */
  lemma {:induction false} ReplaceKeepsWords(p: string, s: string, pat: string, sub: string)
    requires pat != "" && sub != "" && (forall i | 0 <= i < |pat| :: IsSpace(pat[i]))
    requires forall i | 0 <= i < |sub| :: IsSpace(sub[i])
    ensures Words(p + ReplaceAll(s, pat, sub)) == Words(p + s)
    decreases |s|
  {
    if |s| < |pat| {
    } else if s[..|pat|] == pat {
      var rest := s[|pat|..];
      ReplaceKeepsWords("", rest, pat, sub);
      assert "" + ReplaceAll(rest, pat, sub) == ReplaceAll(rest, pat, sub) && "" + rest == rest;
      WordsOfThree(p, sub, ReplaceAll(rest, pat, sub));
      WordsOfThree(p, pat, rest);
      assert s == pat + rest;
      Regroup(p, sub, ReplaceAll(rest, pat, sub));
      Regroup(p, pat, rest);
    } else {
      ReplaceKeepsWords(p + [s[0]], s[1..], pat, sub);
      assert s == [s[0]] + s[1..];
      Regroup(p, [s[0]], ReplaceAll(s[1..], pat, sub));
      Regroup(p, [s[0]], s[1..]);
    }
  }

  lemma {:induction false} CollapseKeepsWords(s: string)
    ensures Words(Collapse(s)) == Words(s)
    decreases |s|
  {
    if Contains(s, "\n\n\n") {
      ReplaceShortens(s, "\n\n\n", "\n\n");
      var t := ReplaceAll(s, "\n\n\n", "\n\n");
      ReplaceKeepsWords("", s, "\n\n\n", "\n\n");
      assert "" + t == t && "" + s == s;
      CollapseKeepsWords(t);
    }
  }

  lemma TrimRightKeepsWords(s: string, drop: char -> bool)
    requires forall c | drop(c) :: IsSpace(c)
    ensures Words(TrimRight(s, drop)) == Words(s)
  {
    var r := TrimRight(s, drop);
    assert s == r + s[|r|..];
    SpaceBehind(r, s[|r|..]);
  }

  lemma TrimSpaceKeepsWords(s: string)
    ensures Words(TrimSpace(s)) == Words(s)
  {
    var l := TrimLeft(s, IsSpace);
    assert s == s[..|s| - |l|] + l;
    SpaceAhead(s[..|s| - |l|], l);
    TrimRightKeepsWords(l, IsSpace);
  }

  /** The words of each text of a node, one text after the other: where one text ends
      its last word ends. */
  function WordsOf(n: Node): seq<string>
    decreases n, 1
  {
    match n.typ
    case Paragraph => Words(PlainInline(n.content))
    case Heading => Words(PlainInline(n.content))
    case BulletList => WordsOfItems(n.content)
    case OrderedList => WordsOfItems(n.content)
    case CodeBlock => Words(RawText(n))
    case Blockquote => WordsOfAll(n.content)
    case HorizontalRule => []
    case Image => Words(n.attrs.alt)
    case TextRun => Words(n.text)
    case HardBreak => []
    case _ => Words(n.text) + WordsOfAll(n.content)
  }

  function WordsOfAll(nodes: seq<Node>): seq<string>
    decreases nodes, 0
  {
    if nodes == [] then [] else WordsOf(nodes[0]) + WordsOfAll(nodes[1..])
  }

  function WordsOfItems(items: seq<Node>): seq<string>
    decreases items, 0
  {
    if items == [] then [] else WordsOfAll(items[0].content) + WordsOfItems(items[1..])
  }

  /** Texts joined with whitespace between them keep their words. */
  lemma JoinCons(part: string, parts: seq<string>, sep: string)
    requires sep != "" && forall i | 0 <= i < |sep| :: IsSpace(sep[i])
    ensures Words(Join([part] + parts, sep)) == Words(part) + Words(Join(parts, sep))
  {
    var all := [part] + parts;
    assert all[1..] == parts;
    if parts == [] {
      assert Words("") == [];
    } else {
      assert Join(all, sep) == part + sep + Join(parts, sep);
      WordsOfThree(part, sep, Join(parts, sep));
    }
  }

  lemma {:induction false} BlocksHaveTheirWords(nodes: seq<Node>)
    ensures Words(PlainBlocks(nodes)) == WordsOfAll(nodes)
    decreases nodes, 2
  {
    if nodes != [] {
      var b := PlainBlock(nodes[0]);
      BlockHasItsWords(nodes[0]);
      BlocksHaveTheirWords(nodes[1..]);
      if b != "" {
        JoinCons(b, Blocks(nodes[1..]), "\n\n");
      } else {
        assert [] + Blocks(nodes[1..]) == Blocks(nodes[1..]);
      }
    }
  }

  lemma {:induction false} ItemsHaveTheirWords(items: seq<Node>)
    ensures Words(Join(Items(items), "\n")) == WordsOfItems(items)
    decreases items, 2
  {
    if items != [] {
      var item := PlainBlocks(items[0].content);
      BlocksHaveTheirWords(items[0].content);
      ItemsHaveTheirWords(items[1..]);
      if item != "" {
        var shown := ReplaceAll(item, "\n\n", "\n");
        ReplaceKeepsWords("", item, "\n\n", "\n");
        assert "" + shown == shown && "" + item == item;
        JoinCons(shown, Items(items[1..]), "\n");
      } else {
        assert [] + Items(items[1..]) == Items(items[1..]);
      }
    }
  }

  lemma {:induction false} BlockHasItsWords(n: Node)
    ensures Words(PlainBlock(n)) == WordsOf(n)
    decreases n, 3
  {
    match n.typ
    case BulletList => ItemsHaveTheirWords(n.content);
    case OrderedList => ItemsHaveTheirWords(n.content);
    case CodeBlock => TrimRightKeepsWords(RawText(n), c => c == '\n');
    case Blockquote => BlocksHaveTheirWords(n.content);
    case HardBreak => SpaceHasNoWords("\n");
    case Paragraph =>
    case Heading =>
    case HorizontalRule =>
    case Image =>
    case TextRun =>
    case _ =>
      var inner := PlainBlocks(n.content);
      BlocksHaveTheirWords(n.content);
      TransparentHasItsWords(n.text, inner);
  }

  lemma TransparentHasItsWords(own: string, inner: string)
    ensures Words(Join(Parts(own, inner), "\n\n")) == Words(own) + Words(inner)
  {
    assert Words("") == [];
    if own != "" && inner != "" {
      assert Parts(own, inner) == [own] + [inner];
      JoinCons(own, [inner], "\n\n");
    }
  }

  /** For every document the words of the plain text are exactly the words of its texts,
      in order: no two texts run together, and none is torn apart. */
  lemma WordsStayApart(root: Node)
    ensures Words(RenderPlain(root)) == WordsOfAll(root.content)
  {
    BlocksHaveTheirWords(root.content);
    CollapseKeepsWords(PlainBlocks(root.content));
    TrimSpaceKeepsWords(Collapse(PlainBlocks(root.content)));
  }

  // ------------------------------------------------------------------- inline

  lemma {:induction false} InlineConcat(a: seq<Node>, b: seq<Node>)
    ensures PlainInline(a + b) == PlainInline(a) + PlainInline(b)
  {
    if a == [] {
      assert a + b == b;
    } else {
      assert (a + b)[1..] == a[1..] + b;
      InlineConcat(a[1..], b);
    }
  }

  /** Inline content is its pieces one after the other: a run as it is, a hard break as
      one newline, an image as its description, anything else as its text and content. */
  lemma InlinePieceByPiece(before: seq<Node>, n: Node, after: seq<Node>)
    ensures PlainInline(before + [n] + after)
         == PlainInline(before)
            + (if n.typ == TextRun then n.text else if n.typ == HardBreak then "\n"
               else if n.typ == Image then n.attrs.alt else n.text + PlainInline(n.content))
            + PlainInline(after)
  {
    InlineConcat(before, [n]);
    InlineConcat(before + [n], after);
    assert PlainInline([n][1..]) == "";
  }

  // ------------------------------------------------------------------ stanzas

  /** Lines that stand together; empty lines keep them apart. */
  function Stanzas(lines: seq<string>): (r: seq<seq<string>>)
    ensures lines != [] && lines[0] != "" ==> r != []
  {
    if lines == [] then []
    else
      var rest := Stanzas(lines[1..]);
      if lines[0] == "" then rest
      else if |lines| > 1 && lines[1] != "" then [[lines[0]] + rest[0]] + rest[1..]
      else [[lines[0]]] + rest
  }

  /** Lines without the whitespace at their ends. */
  function Trimmed(lines: seq<string>): (r: seq<string>)
    ensures |r| == |lines| && forall i | 0 <= i < |lines| :: r[i] == TrimSpace(lines[i])
  {
    seq(|lines|, i requires 0 <= i < |lines| => TrimSpace(lines[i]))
  }

  function TrimmedLines(s: string): (r: seq<string>)
    ensures r != []
  {
    Trimmed(Split(s, '\n'))
  }

  /** What a reader of the text sees. */
  function Layout(s: string): seq<seq<string>> {
    Stanzas(TrimmedLines(s))
  }

  lemma {:induction false} StanzasApart(a: seq<string>, b: seq<string>)
    ensures Stanzas(a + ([""] + b)) == Stanzas(a) + Stanzas(b)
  {
    var all := a + ([""] + b);
    if a == [] {
      assert all == [""] + b && all[1..] == b;
    } else {
      assert all[1..] == a[1..] + ([""] + b) && all[0] == a[0];
      StanzasApart(a[1..], b);
      assert |a| > 1 ==> all[1] == a[1];
      assert |a| == 1 ==> all[1] == "";
    }
  }

  lemma {:induction false} SplitConcat(a: string, b: string)
    ensures Split(a + ("\n" + b), '\n') == Split(a, '\n') + Split(b, '\n')
  {
    var s := a + ("\n" + b);
    if a == "" {
      assert s == "\n" + b && s[1..] == b;
    } else {
      assert s[1..] == a[1..] + ("\n" + b);
      SplitConcat(a[1..], b);
    }
  }

  lemma LinesConcat(a: string, b: string)
    ensures TrimmedLines(a + ("\n" + b)) == TrimmedLines(a) + TrimmedLines(b)
  {
    SplitConcat(a, b);
  }

  lemma EmptyLine()
    ensures TrimmedLines("") == [""] && Layout("") == []
  {
    EmptyText("");
    NoStanza([""]);
  }

  lemma EmptyText(s: string)
    requires s == ""
    ensures TrimmedLines(s) == [""]
  {
    assert Split(s, '\n') == [""];
    OneEmpty(Split(s, '\n'));
  }

  lemma OneEmpty(lines: seq<string>)
    requires |lines| == 1 && lines[0] == ""
    ensures Trimmed(lines) == [""]
  {
    assert |TrimSpace(lines[0])| <= 0;
  }

  lemma NoStanza(lines: seq<string>)
    requires lines == [""]
    ensures Stanzas(lines) == []
  {
    assert lines[1..] == [];
  }

  lemma GapAhead(b: string)
    ensures TrimmedLines("\n" + b) == [""] + TrimmedLines(b)
  {
    EmptyLine();
    LinesConcat("", b);
    assert "" + ("\n" + b) == "\n" + b;
  }

  lemma StanzasBehindGap(lines: seq<string>)
    ensures Stanzas([""] + lines) == Stanzas(lines)
  {
    assert ([""] + lines)[1..] == lines;
  }

  lemma LayoutBehindGap(b: string)
    ensures Layout("\n" + b) == Layout(b)
  {
    GapAhead(b);
    StanzasBehindGap(TrimmedLines(b));
  }

  lemma LinesApart(a: string, b: string)
    ensures TrimmedLines(a + ("\n\n" + b)) == TrimmedLines(a) + ([""] + TrimmedLines(b))
  {
    GapAhead(b);
    LinesConcat(a, "\n" + b);
    assert "\n" + ("\n" + b) == "\n\n" + b;
  }

  lemma LayoutApart(a: string, b: string)
    ensures Layout(a + ("\n\n" + b)) == Layout(a) + Layout(b)
  {
    LinesApart(a, b);
    StanzasApart(TrimmedLines(a), TrimmedLines(b));
  }

  lemma LayoutWiderApart(a: string, b: string, gap: string)
    requires gap == "\n\n\n"
    ensures Layout(a + (gap + b)) == Layout(a) + Layout(b)
  {
    WiderGap(a, b, gap);
    LayoutBehindGap(b);
    LayoutApart(a, "\n" + b);
  }

  lemma WiderGap(a: string, b: string, gap: string)
    requires gap == "\n\n\n"
    ensures a + (gap + b) == a + ("\n\n" + ("\n" + b))
  {
  }

  lemma MatchedLayout(p: string, s: string, t: string, gap: string)
    requires gap == "\n\n\n" && |s| >= |gap| && s[..|gap|] == gap && Layout(t) == Layout(s[|gap|..])
    ensures Layout(p + ("\n\n" + t)) == Layout(p + s)
  {
    LayoutApart(p, t);
    CutInTwo(s, |gap|);
    LayoutWiderApart(p, s[|gap|..], gap);
  }

  lemma CutInTwo(s: string, n: nat)
    requires n <= |s|
    ensures s[..n] + s[n..] == s
  {
  }

  /** Collapsing blank lines keeps the stanzas. */
  lemma {:induction false} ReplaceKeepsLayout(p: string, s: string, pat: string, sub: string)
    requires pat == "\n\n\n" && sub == "\n\n"
    ensures Layout(p + ReplaceAll(s, pat, sub)) == Layout(p + s)
    decreases |s|
  {
    if |s| < |pat| {
    } else if s[..|pat|] == pat {
      var rest := s[|pat|..];
      ReplaceKeepsLayout("", rest, pat, sub);
      NothingAhead(ReplaceAll(rest, pat, sub));
      NothingAhead(rest);
      MatchedLayout(p, s, ReplaceAll(rest, pat, sub), pat);
    } else {
      ReplaceKeepsLayout(p + [s[0]], s[1..], pat, sub);
      OneOnLayout(p, s, ReplaceAll(s[1..], pat, sub));
    }
  }

  lemma OneOnLayout(p: string, s: string, t: string)
    requires s != "" && Layout(p + [s[0]] + t) == Layout(p + [s[0]] + s[1..])
    ensures Layout(p + ([s[0]] + t)) == Layout(p + s)
  {
    OneOn(p, s[0], s[1..]);
    OneOn(p, s[0], t);
    assert [s[0]] + s[1..] == s;
  }

  lemma NothingAhead(s: string)
    ensures "" + s == s
  {
  }

  lemma OneOn(p: string, c: char, s: string)
    ensures p + [c] + s == p + ([c] + s)
  {
  }

  lemma {:induction false} CollapseKeepsLayout(s: string)
    ensures Layout(Collapse(s)) == Layout(s)
    decreases |s|
  {
    if Contains(s, "\n\n\n") {
      ReplaceShortens(s, "\n\n\n", "\n\n");
      var t := ReplaceAll(s, "\n\n\n", "\n\n");
      ReplaceKeepsLayout("", s, "\n\n\n", "\n\n");
      assert "" + t == t && "" + s == s;
      CollapseKeepsLayout(t);
    }
  }

  // -------------------------------------------------------- whitespace at the ends

  lemma TrimAhead(c: char, line: string)
    requires IsSpace(c)
    ensures TrimSpace([c] + line) == TrimSpace(line)
  {
    assert ([c] + line)[1..] == line;
  }

  lemma TrimRightOf(line: string, c: char)
    requires IsSpace(c)
    ensures TrimRight(line + [c], IsSpace) == TrimRight(line, IsSpace)
  {
    assert (line + [c])[..|line|] == line;
  }

  lemma TrimLeftBehind(line: string, c: char)
    requires IsSpace(c)
    ensures var l := TrimLeft(line, IsSpace);
            TrimLeft(line + [c], IsSpace) == if l == "" then "" else l + [c]
  {
    var n, s := Leading(line, IsSpace), line + [c];
    assert forall i | 0 <= i < |line| :: s[i] == line[i];
    if n < |line| {
      LeadingIs(s, IsSpace, n);
      assert s[n..] == line[n..] + [c];
    } else {
      LeadingIs(s, IsSpace, |s|);
    }
  }

  lemma TrimBehind(line: string, c: char)
    requires IsSpace(c)
    ensures TrimSpace(line + [c]) == TrimSpace(line)
  {
    TrimLeftBehind(line, c);
    TrimRightOf(TrimLeft(line, IsSpace), c);
  }

  lemma SpaceAheadOfLayout(c: char, s: string)
    requires IsSpace(c)
    ensures Layout([c] + s) == Layout(s)
  {
    var lines := Split(s, '\n');
    assert ([c] + s)[1..] == s;
    if c == '\n' {
      LayoutBehindGap(s);
    } else {
      TrimAhead(c, lines[0]);
      assert Trimmed([[c] + lines[0]] + lines[1..]) == Trimmed(lines);
    }
  }

  function LastLonger(lines: seq<string>, c: char): seq<string>
    requires lines != []
  {
    if c == '\n' then lines + [""] else lines[..|lines| - 1] + [lines[|lines| - 1] + [c]]
  }

  lemma {:induction false} SplitBehindLast(s: string, c: char)
    ensures Split(s + [c], '\n') == LastLonger(Split(s, '\n'), c)
  {
    if s == "" {
      SplitOneChar(c);
      assert "" + [c] == [c];
    } else {
      var rest := Split(s[1..], '\n');
      assert (s + [c])[1..] == s[1..] + [c];
      SplitBehindLast(s[1..], c);
      LongerStep(s[0], rest, c);
    }
  }

  lemma SplitOneChar(c: char)
    ensures Split([c], '\n') == LastLonger(Split("", '\n'), c)
  {
    var t := [c][1..];
    assert t == "" && Split(t, '\n') == [""] && Split("", '\n') == [""];
    assert [c] + "" == [c] && "" + [c] == [c] && [""][1..] == [] && [""][..0] == [];
  }

  lemma LongerStep(d: char, rest: seq<string>, c: char)
    requires rest != []
    ensures LastLonger([""] + rest, c) == [""] + LastLonger(rest, c)
    ensures (var longer := LastLonger(rest, c);
             LastLonger([[d] + rest[0]] + rest[1..], c) == [[d] + longer[0]] + longer[1..])
  {
    if |rest| == 1 { assert [d] + rest[0] + [c] == [d] + (rest[0] + [c]); }
  }

  lemma SpaceBehindLayout(s: string, c: char)
    requires IsSpace(c)
    ensures Layout(s + [c]) == Layout(s)
  {
    if c == '\n' {
      EmptyLine();
      LinesConcat(s, "");
      assert s + ("\n" + "") == s + [c];
      StanzasApart(TrimmedLines(s), []);
      assert TrimmedLines(s) + ([""] + []) == TrimmedLines(s) + [""];
    } else {
      LastLineTrimmed(s, c);
    }
  }

  lemma LastLineTrimmed(s: string, c: char)
    requires IsSpace(c) && c != '\n'
    ensures TrimmedLines(s + [c]) == TrimmedLines(s)
  {
    var lines := Split(s, '\n');
    SplitBehindLast(s, c);
    TrimBehind(lines[|lines| - 1], c);
    LastTrimmed(lines, lines[|lines| - 1] + [c]);
  }

  lemma LastTrimmed(lines: seq<string>, last: string)
    requires lines != [] && TrimSpace(last) == TrimSpace(lines[|lines| - 1])
    ensures Trimmed(lines[..|lines| - 1] + [last]) == Trimmed(lines)
  {
    var other := lines[..|lines| - 1] + [last];
    forall i | 0 <= i < |lines| ensures TrimSpace(other[i]) == TrimSpace(lines[i]) {
      if i < |lines| - 1 { assert other[i] == lines[i]; }
    }
  }

  lemma {:induction false} TrimRightKeepsLayout(s: string, drop: char -> bool)
    requires forall c | drop(c) :: IsSpace(c)
    ensures Layout(TrimRight(s, drop)) == Layout(s)
  {
    if s != "" && drop(s[|s| - 1]) {
      var front, last := s[..|s| - 1], s[|s| - 1];
      assert front + [last] == s;
      TrimRightKeepsLayout(front, drop);
      SpaceBehindLayout(front, last);
    }
  }

  lemma {:induction false} SkippedKeepsLayout(s: string, n: nat)
    requires n <= |s| && forall i | 0 <= i < n :: IsSpace(s[i])
    ensures Layout(s[n..]) == Layout(s)
    decreases |s|
  {
    if n == 0 {
      assert s[0..] == s;
    } else {
      OneSkipped(s, n);
      SkippedKeepsLayout(s[1..], n - 1);
      SpaceAheadOfLayout(s[0], s[1..]);
    }
  }

  lemma OneSkipped(s: string, n: nat)
    requires 0 < n <= |s|
    ensures s[1..][n - 1..] == s[n..] && [s[0]] + s[1..] == s
  {
  }

  lemma TrimSpaceKeepsLayout(s: string)
    ensures Layout(TrimSpace(s)) == Layout(s)
  {
    SkippedKeepsLayout(s, Leading(s, IsSpace));
    TrimRightKeepsLayout(TrimLeft(s, IsSpace), IsSpace);
  }

  // -------------------------------------------------------------------- blocks

  function Flat(stanzas: seq<seq<string>>): seq<string> {
    if stanzas == [] then [] else stanzas[0] + Flat(stanzas[1..])
  }

  lemma {:induction false} FlatConcat(a: seq<seq<string>>, b: seq<seq<string>>)
    ensures Flat(a + b) == Flat(a) + Flat(b)
  {
    if a == [] {
      assert a + b == b;
    } else {
      assert (a + b)[1..] == a[1..] + b;
      FlatConcat(a[1..], b);
    }
  }

  /** The stanzas of a document: those of each text, and of a list one, of all the lines
      of its items. */
  function StanzasOf(n: Node): seq<seq<string>>
    decreases n, 1
  {
    match n.typ
    case Paragraph => Layout(PlainInline(n.content))
    case Heading => Layout(PlainInline(n.content))
    case BulletList => Together(LinesOfItems(n.content))
    case OrderedList => Together(LinesOfItems(n.content))
    case CodeBlock => Layout(RawText(n))
    case Blockquote => StanzasOfAll(n.content)
    case HorizontalRule => []
    case Image => Layout(n.attrs.alt)
    case TextRun => Layout(n.text)
    case HardBreak => []
    case _ => Layout(n.text) + StanzasOfAll(n.content)
  }

  function Together(lines: seq<string>): seq<seq<string>> {
    if lines == [] then [] else [lines]
  }

  function StanzasOfAll(nodes: seq<Node>): seq<seq<string>>
    decreases nodes, 0
  {
    if nodes == [] then [] else StanzasOf(nodes[0]) + StanzasOfAll(nodes[1..])
  }

  function LinesOfItems(items: seq<Node>): seq<string>
    decreases items, 0
  {
    if items == [] then [] else Flat(StanzasOfAll(items[0].content)) + LinesOfItems(items[1..])
  }

  /** Every line of the text has something on it. */
  predicate Even(s: string) {
    forall i | 0 <= i < |TrimmedLines(s)| :: TrimmedLines(s)[i] != ""
  }

  predicate EmptyOrEven(s: string) {
    s == "" || Even(s)
  }

  /** The texts in items of a list leave no line empty. */
  predicate EvenNode(n: Node)
    decreases n, 1
  {
    match n.typ
    case Paragraph => EmptyOrEven(PlainInline(n.content))
    case Heading => EmptyOrEven(PlainInline(n.content))
    case BulletList => EvenItems(n.content)
    case OrderedList => EvenItems(n.content)
    case CodeBlock => EmptyOrEven(TrimRight(RawText(n), c => c == '\n'))
    case Blockquote => EvenNodes(n.content)
    case HorizontalRule => true
    case Image => EmptyOrEven(n.attrs.alt)
    case TextRun => EmptyOrEven(n.text)
    case HardBreak => false
    case _ => EmptyOrEven(n.text) && EvenNodes(n.content)
  }

  predicate EvenNodes(nodes: seq<Node>)
    decreases nodes, 0
  {
    nodes == [] || (EvenNode(nodes[0]) && EvenNodes(nodes[1..]))
  }

  predicate EvenItems(items: seq<Node>)
    decreases items, 0
  {
    items == [] || (EvenNodes(items[0].content) && EvenItems(items[1..]))
  }

  /** ... in every list of the document. */
  predicate EvenLists(nodes: seq<Node>)
    decreases nodes
  {
    nodes == [] ||
    (EvenLists(nodes[1..])
     && match nodes[0].typ
        case BulletList => EvenItems(nodes[0].content)
        case OrderedList => EvenItems(nodes[0].content)
        case Blockquote => EvenLists(nodes[0].content)
        case Other(_) => EvenLists(nodes[0].content)
        case Doc => EvenLists(nodes[0].content)
        case ListItem => EvenLists(nodes[0].content)
        case _ => true)
  }

  /** Lines without an empty one stand together. */
  lemma {:induction false} FullLines(lines: seq<string>)
    requires lines != [] && forall i | 0 <= i < |lines| :: lines[i] != ""
    ensures Stanzas(lines) == [lines]
  {
    if |lines| == 1 {
      assert lines[1..] == [] && lines == [lines[0]];
    } else {
      FullLines(lines[1..]);
      assert [lines[0]] + lines[1..] == lines;
    }
  }

  lemma EvenLayout(s: string)
    requires Even(s)
    ensures Layout(s) == [TrimmedLines(s)]
  {
    FullLines(TrimmedLines(s));
  }

  /** The text as it stands in an item: its blank lines taken out it is even, and its
      lines are those of these stanzas. */
  predicate Seamed(s: string, stanzas: seq<seq<string>>) {
    if s == "" then stanzas == []
    else
      var t := ReplaceAll(s, "\n\n", "\n");
      s[|s| - 1] != '\n' && Even(t) && TrimmedLines(t) == Flat(stanzas)
  }

  lemma {:induction false} ReplaceAcross(a: string, b: string, pat: string, sub: string)
    requires a != "" && a[|a| - 1] != '\n' && pat == "\n\n"
    ensures ReplaceAll(a + (pat + b), pat, sub) == ReplaceAll(a, pat, sub) + (sub + ReplaceAll(b, pat, sub))
    decreases |a|
  {
    var s := a + (pat + b);
    if |a| == 1 {
      assert s[..2] == [a[0], '\n'] && s[1..] == pat + b;
      assert (pat + b)[..2] == pat && (pat + b)[2..] == b;
      assert ReplaceAll(a, pat, sub) == a;
    } else if a[..2] == pat {
      assert s[..2] == pat && s[2..] == a[2..] + (pat + b);
      ReplaceAcross(a[2..], b, pat, sub);
      Regroup(sub, ReplaceAll(a[2..], pat, sub), sub + ReplaceAll(b, pat, sub));
    } else {
      assert s[..2] == a[..2] && s[1..] == a[1..] + (pat + b);
      ReplaceAcross(a[1..], b, pat, sub);
      Regroup([a[0]], ReplaceAll(a[1..], pat, sub), sub + ReplaceAll(b, pat, sub));
    }
  }

  lemma EvenTogether(a: string, b: string)
    requires Even(a) && Even(b)
    ensures Even(a + ("\n" + b)) && TrimmedLines(a + ("\n" + b)) == TrimmedLines(a) + TrimmedLines(b)
  {
    LinesConcat(a, b);
  }

  lemma SeamedTogether(a: string, sa: seq<seq<string>>, b: string, sb: seq<seq<string>>)
    requires a != "" && b != "" && Seamed(a, sa) && Seamed(b, sb)
    ensures Seamed(a + "\n\n" + b, sa + sb)
  {
    var pat, sub := "\n\n", "\n";
    ReplaceAcross(a, b, pat, sub);
    Regroup(a, pat, b);
    EvenTogether(ReplaceAll(a, pat, sub), ReplaceAll(b, pat, sub));
    FlatConcat(sa, sb);
  }

  /** An even text holds no two newlines in a row, and ends in none. */
  lemma EvenHasNoGap(a: string, b: string)
    ensures !Even(a + ("\n\n" + b)) && !Even(a + "\n")
  {
    LinesApart(a, b);
    var lines := TrimmedLines(a);
    assert (lines + ([""] + TrimmedLines(b)))[|lines|] == "";
    EmptyLine();
    LinesConcat(a, "");
    assert a + ("\n" + "") == a + "\n" && (lines + [""])[|lines|] == "";
  }

  lemma EvenHoldsNoGap(s: string, pat: string)
    requires Even(s) && pat == "\n\n"
    ensures !Contains(s, pat)
  {
    if Contains(s, pat) {
      var i: nat :| i <= |s| && MatchAt(s, pat, i);
      var front, back := s[..i], s[i + 2..];
      assert s == front + (pat + back);
      EvenHasNoGap(front, back);
    }
  }

  lemma {:induction false} NothingReplaced(s: string, pat: string, sub: string)
    requires pat != "" && !Contains(s, pat)
    ensures ReplaceAll(s, pat, sub) == s
  {
    if |s| >= |pat| {
      assert !MatchAt(s, pat, 0);
      if Contains(s[1..], pat) {
        assert s[1..1 + |s[1..]|] == s[1..];
        StretchContains(s, 1, s[1..], pat);
      } else {
        NothingReplaced(s[1..], pat, sub);
        assert s == [s[0]] + s[1..];
      }
    }
  }

  lemma EvenIsSeamed(s: string)
    requires EmptyOrEven(s)
    ensures Seamed(s, Layout(s))
  {
    if s == "" {
      EmptyLine();
    } else {
      EvenHoldsNoGap(s, "\n\n");
      NothingReplaced(s, "\n\n", "\n");
      EvenHasNoGap(s[..|s| - 1], "");
      assert s == s[..|s| - 1] + [s[|s| - 1]];
      EvenLayout(s);
      assert Flat([TrimmedLines(s)]) == TrimmedLines(s) + Flat([]);
    }
  }

  /** The blocks of a sequence, put behind the first one. */
  lemma BlocksStep(nodes: seq<Node>)
    requires nodes != []
    ensures var b, rest := PlainBlock(nodes[0]), PlainBlocks(nodes[1..]);
            PlainBlocks(nodes) == if b == "" then rest else if rest == "" then b else b + "\n\n" + rest
  {
    var b, rest := PlainBlock(nodes[0]), Blocks(nodes[1..]);
    BlocksShow(nodes[1..]);
    if b == "" {
      assert [] + rest == rest;
    } else {
      assert ([b] + rest)[1..] == rest;
    }
  }

  lemma {:induction false} BlocksShow(nodes: seq<Node>)
    ensures Blocks(nodes) != [] ==> PlainBlocks(nodes) != ""
  {
    if nodes != [] { BlocksShow(nodes[1..]); }
  }

  lemma {:induction false} ItemsAreSeamed(items: seq<Node>)
    requires EvenItems(items)
    ensures var s := Join(Items(items), "\n");
            if Items(items) == [] then LinesOfItems(items) == [] else Even(s) && TrimmedLines(s) == LinesOfItems(items)
    decreases items, 2
  {
    if items != [] {
      var item, rest := PlainBlocks(items[0].content), Items(items[1..]);
      NodesAreSeamed(items[0].content);
      ItemsAreSeamed(items[1..]);
      if item == "" {
        assert [] + rest == rest;
      } else {
        ItemJoins(ReplaceAll(item, "\n\n", "\n"), rest);
      }
    }
  }

  lemma ItemJoins(shown: string, rest: seq<string>)
    requires Even(shown) && (rest != [] ==> Even(Join(rest, "\n")))
    ensures var s := Join([shown] + rest, "\n");
            && Even(s)
            && TrimmedLines(s) == TrimmedLines(shown) + if rest == [] then [] else TrimmedLines(Join(rest, "\n"))
  {
    assert ([shown] + rest)[1..] == rest;
    if rest == [] {
      assert [shown] + rest == [shown];
    } else {
      Regroup(shown, "\n", Join(rest, "\n"));
      EvenTogether(shown, Join(rest, "\n"));
    }
  }

  lemma {:induction false} NodesAreSeamed(nodes: seq<Node>)
    requires EvenNodes(nodes)
    ensures Seamed(PlainBlocks(nodes), StanzasOfAll(nodes))
    decreases nodes, 2
  {
    if nodes != [] {
      var b, rest := PlainBlock(nodes[0]), PlainBlocks(nodes[1..]);
      NodeIsSeamed(nodes[0]);
      NodesAreSeamed(nodes[1..]);
      BlocksStep(nodes);
      SeamsMeet(b, StanzasOf(nodes[0]), rest, StanzasOfAll(nodes[1..]));
    }
  }

  lemma SeamsMeet(a: string, sa: seq<seq<string>>, b: string, sb: seq<seq<string>>)
    requires Seamed(a, sa) && Seamed(b, sb)
    ensures Seamed(if a == "" then b else if b == "" then a else a + "\n\n" + b, sa + sb)
  {
    if a == "" {
      assert sa + sb == sb;
    } else if b == "" {
      assert sa + sb == sa;
    } else {
      SeamedTogether(a, sa, b, sb);
    }
  }

  lemma {:induction false} NodeIsSeamed(n: Node)
    requires EvenNode(n)
    ensures Seamed(PlainBlock(n), StanzasOf(n))
    decreases n, 3
  {
    match n.typ
    case Paragraph => EvenIsSeamed(PlainInline(n.content));
    case Heading => EvenIsSeamed(PlainInline(n.content));
    case BulletList => ListIsSeamed(n);
    case OrderedList => ListIsSeamed(n);
    case CodeBlock =>
      EvenIsSeamed(TrimRight(RawText(n), c => c == '\n'));
      TrimRightKeepsLayout(RawText(n), c => c == '\n');
    case Blockquote => NodesAreSeamed(n.content);
    case HorizontalRule =>
    case Image => EvenIsSeamed(n.attrs.alt);
    case TextRun => EvenIsSeamed(n.text);
    case HardBreak => assert false;
    case _ =>
      EvenIsSeamed(n.text);
      NodesAreSeamed(n.content);
      SeamsMeet(n.text, Layout(n.text), PlainBlocks(n.content), StanzasOfAll(n.content));
      PartsJoin(n.text, PlainBlocks(n.content));
  }

  lemma PartsJoin(a: string, b: string)
    ensures Join(Parts(a, b), "\n\n") == if a == "" then b else if b == "" then a else a + "\n\n" + b
  {
    if a != "" && b != "" { assert Parts(a, b)[1..] == [b]; }
  }

  lemma {:induction false} ListIsSeamed(n: Node)
    requires EvenItems(n.content)
    ensures var s := Join(Items(n.content), "\n");
            Seamed(s, Together(LinesOfItems(n.content))) && Layout(s) == Together(LinesOfItems(n.content))
    decreases n, 2
  {
    ItemsAreSeamed(n.content);
    EmptyLine();
    if Items(n.content) != [] {
      EvenIsSeamed(Join(Items(n.content), "\n"));
      EvenLayout(Join(Items(n.content), "\n"));
    }
  }

  lemma LayoutMeets(a: string, b: string)
    ensures Layout(if a == "" then b else if b == "" then a else a + "\n\n" + b) == Layout(a) + Layout(b)
  {
    EmptyLine();
    LayoutApart(a, b);
    Regroup(a, "\n\n", b);
  }

  lemma {:induction false} BlocksHaveTheirLayout(nodes: seq<Node>)
    requires EvenLists(nodes)
    ensures Layout(PlainBlocks(nodes)) == StanzasOfAll(nodes)
    decreases nodes, 0
  {
    EmptyLine();
    if nodes != [] {
      BlocksHaveTheirLayout(nodes[1..]);
      BlockHasItsLayout(nodes[0], nodes);
      BlocksStep(nodes);
      LayoutMeets(PlainBlock(nodes[0]), PlainBlocks(nodes[1..]));
    }
  }

  lemma {:induction false} BlockHasItsLayout(n: Node, nodes: seq<Node>)
    requires nodes != [] && nodes[0] == n && EvenLists(nodes)
    ensures Layout(PlainBlock(n)) == StanzasOf(n)
    decreases n, 1
  {
    match n.typ
    case Paragraph =>
    case Heading =>
    case BulletList => ListIsSeamed(n);
    case OrderedList => ListIsSeamed(n);
    case CodeBlock => TrimRightKeepsLayout(RawText(n), c => c == '\n');
    case Blockquote => BlocksHaveTheirLayout(n.content);
    case HorizontalRule => EmptyLine();
    case Image =>
    case TextRun =>
    case HardBreak => BreakIsNoText(PlainBlock(n));
    case _ =>
      BlocksHaveTheirLayout(n.content);
      PartsLayout(n.text, PlainBlocks(n.content));
  }

  lemma PartsLayout(a: string, b: string)
    ensures Layout(Join(Parts(a, b), "\n\n")) == Layout(a) + Layout(b)
  {
    LayoutMeets(a, b);
    PartsJoin(a, b);
  }

  lemma BreakIsNoText(s: string)
    requires s == "\n"
    ensures Layout(s) == []
  {
    var rest := s[1..];
    SpaceAheadOfLayout(s[0], rest);
    EmptyLine();
    assert rest == "" && [s[0]] + rest == s;
  }

  /** A reader of the plain text who takes lines that stand together for one text gets the
      texts of the document back, line by line and in order: blocks are kept apart by
      blank lines, whatever they are, and the items of a list by line breaks, as long as
      no text in an item leaves a line of its own empty. */
  lemma BlocksStandApart(root: Node)
    requires EvenLists(root.content)
    ensures Layout(RenderPlain(root)) == StanzasOfAll(root.content)
  {
    BlocksHaveTheirLayout(root.content);
    CollapseKeepsLayout(PlainBlocks(root.content));
    TrimSpaceKeepsLayout(Collapse(PlainBlocks(root.content)));
  }

  /** Two paragraphs of one word each. */
  lemma TwoParagraphs(root: Node, a: Node, b: Node, x: Node, y: Node)
    requires root.content == [a, b] && a.typ == Paragraph && b.typ == Paragraph && a.content == [x] && b.content == [y]
    requires x.typ == TextRun && y.typ == TextRun && x.text == "foo" && y.text == "bar"
    ensures RenderPlain(root) == "foo" + ("\n\n" + "bar")
  {
    assert [x][1..] == [] && [y][1..] == [];
    assert PlainInline([x]) == "foo" && PlainInline([y]) == "bar";
    assert [a, b][1..] == [b] && [b][1..] == [];
    BlocksStep([b]);
    BlocksStep([a, b]);
    Regroup("foo", "\n\n", "bar");
    FooBarIsTidy("foo" + ("\n\n" + "bar"));
  }

  lemma FooBarIsTidy(s: string)
    requires s == "foo" + ("\n\n" + "bar")
    ensures TrimSpace(Collapse(s)) == s
  {
    assert s[0] == 'f' && s[5] == 'b' && s[6] == 'a' && s[7] == 'r' && |s| == 8;
    forall i: nat | i <= |s| ensures !MatchAt(s, "\n\n\n", i) {
      if i + 3 <= |s| {
        var m := s[i..i + 3];
        assert m[0] == s[i] && m[1] == s[i + 1] && m[2] == s[i + 2];
      }
    }
    assert Leading(s, IsSpace) == 0 && s[0..] == s;
    assert TrimRight(s, IsSpace) == s;
  }
}