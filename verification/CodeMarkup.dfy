/** Code blocks and code spans, and readers of both after CommonMark 0.31.2. */
module CodeMarkup {
  import opened Wrappers
  import opened Body
  import opened Text
  import opened Lines
  import opened References

  // ------------------------------------------------------------ backtick runs

  function Ticks(n: nat): (s: string)
    ensures |s| == n && forall i | 0 <= i < n :: s[i] == '`'
  {
    if n == 0 then "" else Ticks(n - 1) + "`"
  }

  function MaxNat(a: nat, b: nat): nat {
    if a < b then b else a
  }

  /** How many backticks s ends with. */
  function TrailingRun(s: string): (n: nat)
    ensures n <= |s| && (forall i | |s| - n <= i < |s| :: s[i] == '`')
    ensures n < |s| ==> s[|s| - 1 - n] != '`'
  {
    if s == "" || s[|s| - 1] != '`' then 0 else 1 + TrailingRun(s[..|s| - 1])
  }

  /** The length of the longest run of backticks in s. */
  function LongestRun(s: string): nat {
    if s == "" then 0 else MaxNat(LongestRun(s[..|s| - 1]), TrailingRun(s))
  }

  lemma AllTicks(s: string)
    requires forall i | 0 <= i < |s| :: s[i] == '`'
    ensures s == Ticks(|s|)
  {
  }

  lemma {:induction false} LongestRunAppears(s: string)
    ensures Contains(s, Ticks(LongestRun(s)))
  {
    if s == "" {
      assert MatchAt(s, Ticks(0), 0);
    } else {
      var init := s[..|s| - 1];
      var n := LongestRun(init);
      if n < TrailingRun(s) {
        var m := TrailingRun(s);
        AllTicks(s[|s| - m..]);
        assert MatchAt(s, Ticks(m), |s| - m);
      } else {
        LongestRunAppears(init);
        StretchContains(s, 0, init, Ticks(n));
      }
    }
  }

  /** A run at the very end is no longer than the trailing one. */
  lemma TrailingBounds(s: string, n: nat)
    requires n <= |s| && s[|s| - n..] == Ticks(n)
    ensures n <= TrailingRun(s)
  {
    var m := TrailingRun(s);
    assert forall i | |s| - n <= i < |s| :: s[i] == s[|s| - n..][i - (|s| - n)];
  }

  lemma {:induction false} LongestRunBounds(s: string, n: nat, i: nat)
    requires MatchAt(s, Ticks(n), i)
    ensures n <= LongestRun(s)
  {
    if s != "" {
      if i + n == |s| {
        TrailingBounds(s, n);
      } else {
        assert s[..|s| - 1][i..i + n] == s[i..i + n];
        LongestRunBounds(s[..|s| - 1], n, i);
      }
    }
  }

  /** Exactly the shorter runs occur. */
  lemma RunsThatOccur(s: string, n: nat)
    ensures Contains(s, Ticks(n)) <==> n <= LongestRun(s)
  {
    if n <= LongestRun(s) {
      var m := LongestRun(s);
      LongestRunAppears(s);
      var t := Ticks(m);
      AllTicks(t[0..n]);
      var i: nat :| i <= |s| && MatchAt(s, t, i);
      assert s[i..i + m][0..n] == s[i..i + n];
      assert MatchAt(s, Ticks(n), i);
    } else if Contains(s, Ticks(n)) {
      var i: nat :| i <= |s| && MatchAt(s, Ticks(n), i);
      LongestRunBounds(s, n, i);
    }
  }

  // --------------------------------------------------------------- the writer

  function Fence(text: string): string {
    Ticks(MaxNat(3, LongestRun(text) + 1))
  }

  /** codeFence. */
  method CodeFence(text: string) returns (fence: string)
    ensures fence == Fence(text) && !Contains(text, fence)
  {
    var longest, current := 0, 0;
    for i := 0 to |text|
      invariant longest == LongestRun(text[..i]) && current == TrailingRun(text[..i])
    {
      assert text[..i + 1][..i] == text[..i];
      if text[i] == '`' {
        current := current + 1;
        if current > longest {
          longest := current;
        }
      } else {
        current := 0;
      }
    }
    assert text[..|text|] == text;
    fence := Ticks(if longest + 1 > 3 then longest + 1 else 3);
    RunsThatOccur(text, |fence|);
  }

  /** The language a fence can carry. */
  function Info(language: string): string {
    if '`' in language || '\n' in language || '\r' in language then "" else language
  }

  function Terminated(text: string): string {
    if text == "" || text[|text| - 1] == '\n' then text else text + "\n"
  }

  /** mdCodeBlock. */
  function CodeBlockOf(n: Node): string {
    var text := RawText(n);
    Fence(text) + Info(n.attrs.language) + "\n" + Terminated(text) + Fence(text)
  }

  method MdCodeBlock(n: Node) returns (s: string)
    ensures s == CodeBlockOf(n)
  {
    var text := RawText(n);
    var fence := CodeFence(text);
    var lang := n.attrs.language;
    if '`' in lang || '\n' in lang || '\r' in lang {
      lang := "";
    }
    s := fence + lang + "\n";
    if text != "" {
      s := s + text;
      if text[|text| - 1] != '\n' {
        s := s + "\n";
      }
    }
    s := s + fence;
    assert s == fence + lang + "\n" + Terminated(text) + fence;
  }

  predicate Padded(text: string) {
    text != "" &&
    (text[0] == '`' || text[|text| - 1] == '`'
     || (text[0] == ' ' && text[|text| - 1] == ' ' && !AllSpace(text)))
  }

  function Inner(text: string): string {
    if Padded(text) then " " + text + " " else text
  }

  function SpanOf(text: string): string {
    var delim := Ticks(LongestRun(text) + 1);
    delim + Inner(text) + delim
  }

  lemma {:induction false} NoLettersIsSpace(s: string)
    requires Letters(s) == ""
    ensures AllSpace(s)
  {
    if s != "" {
      NoLettersIsSpace(s[1..]);
      assert forall c | c in s :: c == s[0] || c in s[1..];
    }
  }

  lemma TrimmedAway(s: string)
    ensures TrimSpace(s) == "" <==> AllSpace(s)
  {
    TrimSpaceKeepsLetters(s);
    if AllSpace(s) {
      SpaceHasNoLetters(s);
    } else if Letters(s) == "" {
      NoLettersIsSpace(s);
    }
  }

  lemma PaddingGroups(delim: string, text: string)
    ensures delim + " " + text + " " + delim == delim + (" " + text + " ") + delim
  {
    assert delim + " " + text + " " == delim + (" " + text + " ");
  }

  /** codeSpan: the delimiter grows until the text does not hold it. */
  method CodeSpan(text: string) returns (s: string)
    ensures s == SpanOf(text)
  {
    var delim := "`";
    assert delim == Ticks(1);
    while Contains(text, delim)
      invariant delim == Ticks(|delim|) && 1 <= |delim| <= LongestRun(text) + 1
      decreases LongestRun(text) + 1 - |delim|
    {
      assert |delim| <= LongestRun(text) by {
        RunsThatOccur(text, |delim|);
      }
      delim := delim + "`";
    }
    assert delim == Ticks(LongestRun(text) + 1) by {
      RunsThatOccur(text, |delim|);
    }
    var spaceEdged := text != "" && text[0] == ' ' && text[|text| - 1] == ' ' && TrimSpace(text) != "";
    TrimmedAway(text);
    if (text != "" && (text[0] == '`' || text[|text| - 1] == '`')) || spaceEdged {
      PaddingGroups(delim, text);
      return delim + " " + text + " " + delim;
    }
    s := delim + text + delim;
  }

  // ------------------------------------------------- fenced code (section 4.5)

  /** How many backticks s starts with. */
  function TickRun(s: string): (n: nat)
    ensures n <= |s| && (forall i | 0 <= i < n :: s[i] == '`') && (n < |s| ==> s[n] != '`')
  {
    if s == "" || s[0] != '`' then 0 else 1 + TickRun(s[1..])
  }

  lemma TickRunIs(s: string, n: nat)
    requires n <= |s| && s[..n] == Ticks(n) && (n < |s| ==> s[n] != '`')
    ensures TickRun(s) == n
  {
    assert forall i | 0 <= i < n :: s[i] == s[..n][i];
  }

  /** At most three spaces, at least n backticks, then only blanks. */
  predicate ClosesFence(line: string, n: nat) {
    var k := Indent(line);
    k <= 3 && n <= TickRun(line[k..]) && Blank(line[k..][TickRun(line[k..])..])
  }

  datatype Block = Block(info: string, text: string, rest: string)

  /** The lines up to the closing fence, or to the end when there is none. */
  function ReadLines(s: string, n: nat): (r: (string, string))
    decreases |s|
  {
    if s == "" then ("", "")
    else if ClosesFence(s[..LineLength(s)], n) then ("", s[LineLength(s)..])
    else
      var tail := ReadLines(s[WholeLine(s)..], n);
      (s[..WholeLine(s)] + tail.0, tail.1)
  }

  lemma TicksStayOnLine(s: string)
    ensures TickRun(s) <= LineLength(s)
  {
  }

  /** The code block that starts s, if one does, and what follows it. The info string
      comes without blanks at its ends, its escapes and references decoded. */
  function ReadCodeBlock(s: string, names: Names): Option<Block> {
    var n := TickRun(s);
    TicksStayOnLine(s);
    if n < 3 || '`' in s[n..LineLength(s)] then None
    else
      var body := ReadLines(s[WholeLine(s)..], n);
      Some(Block(Read(TrimBlanks(s[n..LineLength(s)]), names), body.0, body.1))
  }

  /** Lines that close a fence hold it. */
  lemma ClosingLineHoldsFence(line: string, n: nat)
    requires ClosesFence(line, n)
    ensures Contains(line, Ticks(n))
  {
    var k := Indent(line);
    var run := line[k..];
    AllTicks(run[..n]);
    assert run[..n] == line[k..k + n];
    assert MatchAt(line, Ticks(n), k);
  }

  lemma FenceCloses(n: nat)
    ensures n > 0 ==> ClosesFence(Ticks(n), n)
  {
    if n > 0 {
      var t := Ticks(n);
      assert t[0..] == t && t[..n] == t;
      TickRunIs(t, n);
    }
  }

  lemma GroupAfter(a: string, b: string, c: string, d: string)
    ensures a + b + c + d == a + (b + (c + d))
  {
  }

  lemma CutConcat(a: string, b: string, k: nat)
    requires k <= |a|
    ensures (a + b)[..k] == a[..k] && (a + b)[k..] == a[k..] + b && a[..k] + a[k..] == a
  {
  }

  lemma DropConcat(a: string, b: string)
    ensures (a + b)[|a|..] == b && (a + b)[..|a|] == a
  {
  }

  lemma TailHoldsNone(s: string, k: nat, pat: string)
    requires k <= |s| && !Contains(s, pat)
    ensures !Contains(s[k..], pat)
  {
    if Contains(s[k..], pat) {
      assert s[k..k + |s[k..]|] == s[k..];
      StretchContains(s, k, s[k..], pat);
    }
  }

  lemma ClosingFenceReads(n: nat, rest: string)
    requires n >= 3 && (rest == "" || EndsLine(rest[0]))
    ensures ReadLines(Ticks(n) + rest, n) == ("", rest)
  {
    var s := Ticks(n) + rest;
    assert s[..n] == Ticks(n) && s[n..] == rest;
    LineLengthIs(s, n);
    FenceCloses(n);
  }

  /** What follows a text that ends its lines changes none of them. */
  lemma FirstLineStays(body: string, tail: string)
    requires body != "" && body[|body| - 1] == '\n'
    ensures LineLength(body + tail) == LineLength(body) && WholeLine(body + tail) == WholeLine(body)
  {
    assert !EndsLine(body[|body| - 1]) || LineLength(body) < |body|;
    LineLengthIs(body + tail, LineLength(body));
  }

  lemma FirstLineHoldsNoFence(body: string, n: nat)
    requires !Contains(body, Ticks(n))
    ensures !ClosesFence(body[..LineLength(body)], n)
  {
    var line := body[..LineLength(body)];
    if ClosesFence(line, n) {
      ClosingLineHoldsFence(line, n);
      StretchContains(body, 0, line, Ticks(n));
    }
  }

  /** The reader takes in every line of a text without the fence, and goes on. */
  lemma {:induction false} LinesComeBack(body: string, n: nat, tail: string, rest: string)
    requires !Contains(body, Ticks(n)) && (body == "" || body[|body| - 1] == '\n')
    requires ReadLines(tail, n) == ("", rest)
    ensures ReadLines(body + tail, n) == (body, rest)
    decreases |body|
  {
    var s := body + tail;
    if body == "" {
      assert s == tail;
    } else {
      var k, w := LineLength(body), WholeLine(body);
      FirstLineStays(body, tail);
      FirstLineHoldsNoFence(body, n);
      CutConcat(body, tail, k);
      CutConcat(body, tail, w);
      TailHoldsNone(body, w, Ticks(n));
      LinesComeBack(body[w..], n, tail, rest);
    }
  }

  lemma TerminatedKeepsRuns(text: string)
    ensures LongestRun(Terminated(text)) == LongestRun(text)
  {
    if Terminated(text) != text {
      assert (text + "\n")[..|text|] == text;
    }
  }

  lemma OpeningReads(m: nat, info: string, tail: string, names: Names)
    requires m >= 3 && '`' !in info && '\n' !in info && '\r' !in info
    ensures var body := ReadLines(tail, m);
            ReadCodeBlock(Ticks(m) + info + "\n" + tail, names)
            == Some(Block(Read(TrimBlanks(info), names), body.0, body.1))
  {
    var line := Ticks(m) + info;
    var s := line + "\n" + tail;
    assert s[..m] == Ticks(m) && s[..|line|] == line && s[|line|] == '\n';
    TickRunIs(s, m);
    LineLengthIs(s, |line|);
    assert s[m..|line|] == info && s[|line| + 1..] == tail;
  }

  lemma CodeBlockReads(n: Node, rest: string, names: Names)
    requires rest == "" || EndsLine(rest[0])
    ensures ReadCodeBlock(CodeBlockOf(n) + rest, names)
         == Some(Block(Read(TrimBlanks(Info(n.attrs.language)), names), Terminated(RawText(n)), rest))
  {
    var text := RawText(n);
    var m, info, body := |Fence(text)|, Info(n.attrs.language), Terminated(text);
    TerminatedKeepsRuns(text);
    RunsThatOccur(body, m);
    ClosingFenceReads(m, rest);
    LinesComeBack(body, m, Ticks(m) + rest, rest);
    OpeningReads(m, info, body + (Ticks(m) + rest), names);
    GroupAfter(Ticks(m) + info + "\n", body, Ticks(m), rest);
  }

  /** A language a fence can carry: no backtick and no line ending, no blank at either
      end, and no escape or reference in it. */
  predicate FitsFence(language: string, names: Names) {
    && '`' !in language && '\n' !in language && '\r' !in language
    && (language != "" ==> !IsBlank(language[0]) && !IsBlank(language[|language| - 1]))
    && Untouched(language, names)
  }

  lemma LanguageReadsExactly(language: string, names: Names)
    requires Sensible(names)
    ensures Read(TrimBlanks(Info(language)), names) == language <==> FitsFence(language, names)
  {
    var info := Info(language);
    TrimBlanksKeeps(info);
    ReadShrinks(TrimBlanks(info), names);
  }

  /** Whatever the code and whatever block comes after, a reader gets back exactly the
      code; it gets back the language if and only if a fence can carry it. */
  lemma CodeBlockComesBack(n: Node, rest: string, names: Names) returns (block: Block)
    requires Sensible(names) && (rest == "" || EndsLine(rest[0]))
    ensures ReadCodeBlock(CodeBlockOf(n) + rest, names) == Some(block)
    ensures block.text == Terminated(RawText(n)) && block.rest == rest
    ensures block.info == n.attrs.language <==> FitsFence(n.attrs.language, names)
  {
    CodeBlockReads(n, rest, names);
    LanguageReadsExactly(n.attrs.language, names);
    block := Block(Read(TrimBlanks(Info(n.attrs.language)), names), Terminated(RawText(n)), rest);
  }

  lemma EscapedHash(s: string, names: Names)
    requires s == "c\\#"
    ensures TrimBlanks(Info(s)) == s && Read(s, names) == "c#"
  {
    TrimBlanksKeeps(s);
    var t := s[1..];
    assert t == "\\#" && t[2..] == "";
    assert Read(s, names) == [s[0]] + Read(t, names);
    assert Read(t, names) == [t[1]] + Read(t[2..], names);
  }

  /** A language such as "c\\#" is read without its backslash. */
  lemma EscapedLanguageIsLost(n: Node, rest: string, names: Names)
    requires n.attrs.language == "c\\#" && (rest == "" || EndsLine(rest[0]))
    ensures ReadCodeBlock(CodeBlockOf(n) + rest, names) == Some(Block("c#", Terminated(RawText(n)), rest))
  {
    CodeBlockReads(n, rest, names);
    EscapedHash(n.attrs.language, names);
  }

  // --------------------------------------------------- code spans (section 6.1)

  /** Where the first run of exactly n backticks starts. */
  function FindClose(s: string, n: nat): (r: Option<nat>)
    requires n > 0
    ensures r.Some? ==> r.value + n <= |s|
    decreases |s|
  {
    if s == "" then None
    else
      if TickRun(s) == n then Some(0)
      else Later(FindClose(s[Step(s)..], n), Step(s))
  }

  /** How far a run, or one character outside a run, goes. */
  function Step(s: string): (n: nat)
    requires s != ""
    ensures 1 <= n <= |s|
  {
    if TickRun(s) == 0 then 1 else TickRun(s)
  }

  function Later(i: Option<nat>, step: nat): Option<nat> {
    match i
    case None => None
    case Some(v) => Some(v + step)
  }

  /** Line endings read as spaces. */
  function Unbroken(s: string): (r: string)
    ensures |r| <= |s| && '\n' !in r && '\r' !in r
    decreases |s|
  {
    if s == "" then ""
    else if EndsLine(s[0]) then " " + Unbroken(s[WholeLine(s)..])
    else [s[0]] + Unbroken(s[1..])
  }

  predicate AllBlankSpaces(s: string) {
    forall c | c in s :: c == ' '
  }

  /** One space comes off each end, unless there is nothing else. */
  function Stripped(s: string): (r: string)
    ensures '\n' in r ==> '\n' in s
    ensures '\r' in r ==> '\r' in s
    ensures s != "" ==> r != ""
  {
    if s != "" && s[0] == ' ' && s[|s| - 1] == ' ' && !AllBlankSpaces(s) then s[1..|s| - 1] else s
  }

  datatype Span = Span(text: string, rest: string)

  /** The code span that starts s, if one does, and what follows it. */
  function ReadSpan(s: string): Option<Span> {
    var n := TickRun(s);
    if n == 0 then None
    else
      match FindClose(s[n..], n)
      case None => None
      case Some(i) => Some(Span(Stripped(Unbroken(s[n..n + i])), s[n + i + n..]))
  }

  lemma ClosingRunReads(n: nat, rest: string)
    requires n > 0 && (rest == "" || rest[0] != '`')
    ensures TickRun(Ticks(n) + rest) == n && FindClose(Ticks(n) + rest, n) == Some(0)
  {
    var s := Ticks(n) + rest;
    assert s[..n] == Ticks(n);
    TickRunIs(s, n);
  }

  lemma FirstRunStays(inner: string, tail: string)
    requires inner != "" && inner[|inner| - 1] != '`'
    ensures TickRun(inner + tail) == TickRun(inner) < |inner|
  {
    var s, k := inner + tail, TickRun(inner);
    assert inner[|inner| - 1] == '`' || k < |inner|;
    AllTicks(inner[..k]);
    assert s[..k] == inner[..k];
    TickRunIs(s, k);
  }

  lemma FirstRunIsShort(inner: string, n: nat)
    requires n > 0 && !Contains(inner, Ticks(n))
    ensures TickRun(inner) < n
  {
    if n <= TickRun(inner) {
      AllTicks(inner[0..n]);
      assert MatchAt(inner, Ticks(n), 0);
    }
  }

  lemma FirstStep(inner: string, n: nat, tail: string)
    requires n > 0 && !Contains(inner, Ticks(n)) && inner != "" && inner[|inner| - 1] != '`'
    ensures var s, step := inner + tail, Step(inner);
            && TickRun(s) != n && Step(s) == step && s[step..] == inner[step..] + tail
            && !Contains(inner[step..], Ticks(n))
  {
    FirstRunStays(inner, tail);
    FirstRunIsShort(inner, n);
    CutConcat(inner, tail, Step(inner));
    TailHoldsNone(inner, Step(inner), Ticks(n));
  }

  lemma FindCloseGoesOn(s: string, n: nat)
    requires n > 0 && s != "" && TickRun(s) != n
    ensures FindClose(s, n) == Later(FindClose(s[Step(s)..], n), Step(s))
  {
  }

  lemma CloseStep(inner: string, n: nat, tail: string)
    requires n > 0 && inner != "" && TickRun(inner + tail) != n && Step(inner + tail) == Step(inner)
    requires (inner + tail)[Step(inner)..] == inner[Step(inner)..] + tail
    requires FindClose(inner[Step(inner)..] + tail, n) == Some(|inner| - Step(inner))
    ensures FindClose(inner + tail, n) == Some(|inner|)
  {
    FindCloseGoesOn(inner + tail, n);
  }

  /** No run inside a text without n backticks in a row is taken for the close. */
  lemma {:induction false} CloseIsFound(inner: string, n: nat, tail: string)
    requires n > 0 && !Contains(inner, Ticks(n)) && (inner != "" ==> inner[|inner| - 1] != '`')
    requires FindClose(tail, n) == Some(0)
    ensures FindClose(inner + tail, n) == Some(|inner|)
    decreases |inner|
  {
    var s := inner + tail;
    if inner == "" {
      assert s == tail;
    } else {
      FirstStep(inner, n, tail);
      CloseIsFound(inner[Step(inner)..], n, tail);
      CloseStep(inner, n, tail);
    }
  }

  lemma {:induction false} UnbrokenKeeps(s: string)
    requires '\n' !in s && '\r' !in s
    ensures Unbroken(s) == s
  {
    if s != "" {
      UnbrokenKeeps(s[1..]);
    }
  }

  lemma SpanParts(a: string, b: string, c: string)
    ensures var s := a + (b + c);
            s[|a|..] == b + c && s[|a|..|a| + |b|] == b && s[|a| + |b|..] == c && s == (a + b) + c
  {
    var s := a + (b + c);
    assert s == (a + b) + c;
  }

  /** What the reader makes of a span of n backticks around inner. */
  lemma SpanReads(inner: string, n: nat, rest: string)
    requires n > 0 && !Contains(inner, Ticks(n)) && inner != ""
    requires inner[0] != '`' && inner[|inner| - 1] != '`'
    requires rest == "" || rest[0] != '`'
    ensures ReadSpan(Ticks(n) + (inner + (Ticks(n) + rest))) == Some(Span(Stripped(Unbroken(inner)), rest))
  {
    var close := Ticks(n) + rest;
    var tail := inner + close;
    ClosingRunReads(n, tail);
    ClosingRunReads(n, rest);
    CloseIsFound(inner, n, close);
    SpanParts(Ticks(n), inner, close);
    DropConcat(Ticks(n), rest);
    SpanParts(Ticks(n) + inner, Ticks(n), rest);
  }

  lemma RunIsInsidePadding(text: string, n: nat, i: nat)
    requires n > 0 && MatchAt(" " + text + " ", Ticks(n), i)
    ensures i > 0 && MatchAt(text, Ticks(n), i - 1)
  {
    var s := " " + text + " ";
    assert s[i..i + n][0] == s[i] && s[i..i + n][n - 1] == s[i + n - 1];
    assert text[i - 1..i - 1 + n] == s[i..i + n];
  }

  lemma PaddingHoldsNoRun(text: string, n: nat)
    requires n > 0 && !Contains(text, Ticks(n))
    ensures !Contains(Inner(text), Ticks(n))
  {
    var s := Inner(text);
    if Padded(text) && Contains(s, Ticks(n)) {
      var i: nat :| i <= |s| && MatchAt(s, Ticks(n), i);
      RunIsInsidePadding(text, n, i);
    }
  }

  /** A text a span can hold: not empty, on one line, and not whitespace that
      starts and ends with a space and has something other than spaces inside. */
  predicate FitsSpan(text: string) {
    && text != "" && '\n' !in text && '\r' !in text
    && !(text[0] == ' ' && text[|text| - 1] == ' ' && AllSpace(text) && !AllBlankSpaces(text))
  }

  lemma InnerEdges(text: string)
    requires text != ""
    ensures var s := Inner(text); s != "" && s[0] != '`' && s[|s| - 1] != '`'
  {
  }

  lemma NoRunInside(text: string)
    ensures !Contains(Inner(text), Ticks(LongestRun(text) + 1))
  {
    RunsThatOccur(text, LongestRun(text) + 1);
    PaddingHoldsNoRun(text, LongestRun(text) + 1);
  }

  lemma SpanGroups(text: string, rest: string)
    ensures var delim := Ticks(LongestRun(text) + 1);
            SpanOf(text) + rest == delim + (Inner(text) + (delim + rest))
  {
    GroupAfter(Ticks(LongestRun(text) + 1), Inner(text), Ticks(LongestRun(text) + 1), rest);
  }

  lemma SpanOfNonEmpty(text: string, rest: string)
    requires text != "" && (rest == "" || rest[0] != '`')
    ensures ReadSpan(SpanOf(text) + rest) == Some(Span(Stripped(Unbroken(Inner(text))), rest))
  {
    NoRunInside(text);
    InnerEdges(text);
    SpanReads(Inner(text), LongestRun(text) + 1, rest);
    SpanGroups(text, rest);
  }

  lemma PaddedHoldsOther(text: string)
    requires Padded(text)
    ensures !AllBlankSpaces(text)
  {
    assert text[0] in text && text[|text| - 1] in text;
  }

  lemma StripUndoesPadding(text: string)
    requires !AllBlankSpaces(text)
    ensures Stripped(" " + text + " ") == text
  {
    var s := " " + text + " ";
    assert s[1..|s| - 1] == text;
    assert forall c | c in text :: c in s;
  }

  lemma PaddingComesOff(text: string)
    requires FitsSpan(text)
    ensures Stripped(Inner(text)) == text
  {
    if Padded(text) {
      PaddedHoldsOther(text);
      StripUndoesPadding(text);
    }
  }

  /** The span of the empty text is no span of its own. */
  lemma EmptySpanIsLost(rest: string)
    requires rest == "" || rest[0] != '`'
    ensures ReadSpan(SpanOf("") + rest) != Some(Span("", rest))
  {
    var s := SpanOf("") + rest;
    assert Ticks(1) == "`" && s[..2] == Ticks(2) && s[2..] == rest;
    TickRunIs(s, 2);
  }

  /** A run of a space, a tab and a space loses its spaces. */
  lemma EdgedTabIsLost(rest: string)
    requires rest == "" || rest[0] != '`'
    ensures ReadSpan(SpanOf(" \t ") + rest) == Some(Span("\t", rest))
  {
    var text := " \t ";
    assert AllSpace(text) && text[0] != '`' && text[2] != '`';
    SpanOfNonEmpty(text, rest);
    UnbrokenKeeps(text);
    assert text[1] == '\t' && text[1] in text;
    assert text[1..2] == "\t";
  }

  /** A reader gets back exactly the text, and goes on where the span ends, if and
      only if the text fits a span. */
  lemma SpanComesBackExactly(text: string, rest: string)
    requires rest == "" || rest[0] != '`'
    ensures ReadSpan(SpanOf(text) + rest) == Some(Span(text, rest)) <==> FitsSpan(text)
  {
    if text == "" {
      EmptySpanIsLost(rest);
    } else {
      SpanOfNonEmpty(text, rest);
      var s := Inner(text);
      if '\n' in text || '\r' in text {
        assert '\n' !in Unbroken(s) && '\r' !in Unbroken(s);
      } else {
        UnbrokenKeeps(s);
        if FitsSpan(text) {
          PaddingComesOff(text);
        } else {
          assert s == text;
        }
      }
    }
  }
}
