/** Backslash escapes of ordinary text, against readers after CommonMark 0.31.2. */
module Escapes {
  import opened Text

  // --------------------------------------------------------------- the writer

  /** The characters that toggle inline formatting, raw HTML or entities. */
  predicate Special(c: char) {
    || c == '\\' || c == '`' || c == '*' || c == '_' || c == '[' || c == ']' || c == '~' || c == '<' || c == '&'
  }

  /** escapeText. */
  function EscapeText(s: string): string {
    if s == "" then ""
    else (if Special(s[0]) then ['\\', s[0]] else [s[0]]) + EscapeText(s[1..])
  }

  /** How many characters of a class s starts with. */
  function Run(s: string, first: char, last: char): (n: nat)
    ensures n <= |s| && (forall i | 0 <= i < n :: first <= s[i] <= last)
    ensures n < |s| ==> !(first <= s[n] <= last)
  {
    if s == "" || !(first <= s[0] <= last) then 0 else 1 + Run(s[1..], first, last)
  }

  /** Nothing more, or a blank, at i. */
  predicate EndsAt(s: string, i: nat) {
    i == |s| || (i < |s| && IsBlank(s[i]))
  }

  predicate SetextLine(s: string) {
    s != "" && (s[0] == '-' || s[0] == '=') && forall i | 0 < i < |s| :: s[i] == '-' || s[i] == '=' || IsBlank(s[i])
  }

  predicate AtxLine(s: string) {
    1 <= Run(s, '#', '#') <= 6 && EndsAt(s, Run(s, '#', '#'))
  }

  predicate QuoteLine(s: string) {
    s != "" && s[0] == '>'
  }

  predicate BulletLine(s: string) {
    s != "" && (s[0] == '+' || s[0] == '-') && EndsAt(s, 1)
  }

  predicate OrderedLine(s: string) {
    var d := Run(s, '0', '9');
    1 <= d <= 9 && d < |s| && (s[d] == '.' || s[d] == ')') && EndsAt(s, d + 1)
  }

  /** Where in an unindented line the escaping backslash goes, if one of the five
      patterns matches. */
  function MarkerIn(s: string): (at: int)
    ensures at == -1 || (0 <= at < |s| && (at == 0 || at == Run(s, '0', '9')))
  {
    if SetextLine(s) || AtxLine(s) || QuoteLine(s) || BulletLine(s) then 0
    else if OrderedLine(s) then Run(s, '0', '9')
    else -1
  }

  function MarkerAt(line: string): (at: int)
    ensures at == -1 || Indent(line) <= at < |line|
  {
    var k := Indent(line);
    var at := MarkerIn(line[k..]);
    if k > 3 || at == -1 then -1 else k + at
  }

  /** escapeLineStart. */
  function EscapeLineStart(line: string): string {
    var at := MarkerAt(line);
    if at == -1 then line else line[..at] + "\\" + line[at..]
  }

  function EscapeLines(lines: seq<string>): (r: seq<string>)
    ensures |r| == |lines| && forall i | 0 <= i < |lines| :: r[i] == EscapeLineStart(lines[i])
  {
    if lines == [] then [] else [EscapeLineStart(lines[0])] + EscapeLines(lines[1..])
  }

  function LineStartsEscaped(s: string): string {
    Join(EscapeLines(Split(s, '\n')), "\n")
  }

  /** escapeLineStarts. */
  method EscapeLineStarts(s: string) returns (r: string)
    ensures r == LineStartsEscaped(s)
  {
    if s == "" {
      return "";
    }
    var lines := Split(s, '\n');
    for i := 0 to |lines|
      invariant |lines| == |Split(s, '\n')|
      invariant forall j | 0 <= j < i :: lines[j] == EscapeLineStart(Split(s, '\n')[j])
      invariant forall j | i <= j < |lines| :: lines[j] == Split(s, '\n')[j]
    {
      lines := lines[i := EscapeLineStart(lines[i])];
    }
    assert lines == EscapeLines(Split(s, '\n'));
    r := Join(lines, "\n");
  }

  // -------------------------------------------- backslash escapes (section 2.4)

  predicate AsciiPunctuation(c: char) {
    '!' <= c <= '/' || ':' <= c <= '@' || '[' <= c <= '`' || '{' <= c <= '~'
  }

  predicate EscapeStarts(s: string) {
    |s| > 1 && s[0] == '\\' && AsciiPunctuation(s[1])
  }

  /** The text a reader makes of s: a backslash before ASCII punctuation goes,
      every other one stays. */
  function Unescape(s: string): string {
    if s == "" then ""
    else if EscapeStarts(s) then [s[1]] + Unescape(s[2..])
    else [s[0]] + Unescape(s[1..])
  }

  /** A reader going through the escapes of s meets no special character, and no
      backslash, that is not escaped. */
  predicate Inert(s: string) {
    s == "" ||
    if s[0] == '\\' then |s| > 1 && AsciiPunctuation(s[1]) && Inert(s[2..])
    else !Special(s[0]) && Inert(s[1..])
  }

  lemma {:induction false} EscapeTextComesBack(s: string)
    ensures Unescape(EscapeText(s)) == s && Inert(EscapeText(s))
  {
    if s != "" {
      EscapeTextComesBack(s[1..]);
      var e, tail := EscapeText(s), EscapeText(s[1..]);
      if Special(s[0]) {
        assert e[2..] == tail;
      } else {
        assert e[1..] == tail;
      }
    }
  }

  /** A reader goes from one text into the next when no escape can span them. */
  lemma {:induction false} ReadsAcross(a: string, t: string)
    requires t != "" && !AsciiPunctuation(t[0])
    ensures Unescape(a + t) == Unescape(a) + Unescape(t)
    ensures Inert(a + t) <==> Inert(a) && Inert(t)
    decreases |a|
  {
    var s := a + t;
    if a == "" {
      assert s == t;
    } else if a[0] == '\\' && |a| > 1 && AsciiPunctuation(a[1]) {
      assert s[2..] == a[2..] + t;
      ReadsAcross(a[2..], t);
    } else {
      assert s[1..] == a[1..] + t;
      assert |a| == 1 ==> s[1] == t[0];
      ReadsAcross(a[1..], t);
    }
  }

  lemma ReadsAcrossLines(a: string, b: string)
    ensures Unescape(a + "\n" + b) == Unescape(a) + ("\n" + Unescape(b))
    ensures Inert(a + "\n" + b) <==> Inert(a) && Inert(b)
  {
    var t := "\n" + b;
    assert t[1..] == b && a + "\n" + b == a + t;
    ReadsAcross(a, t);
  }

  /** Characters that take no part in escapes are read as they stand. */
  lemma {:induction false} PlainPrefix(p: string, s: string)
    requires forall i | 0 <= i < |p| :: !Special(p[i])
    ensures Unescape(p + s) == p + Unescape(s) && (Inert(p + s) <==> Inert(s))
  {
    if p == "" {
      assert p + s == s;
    } else {
      assert (p + s)[1..] == p[1..] + s;
      PlainPrefix(p[1..], s);
    }
  }

  lemma MarkerInIsPunctuation(s: string)
    requires MarkerIn(s) != -1
    ensures AsciiPunctuation(s[MarkerIn(s)]) && !Special(s[MarkerIn(s)])
  {
  }

  lemma DigitsBeforeMarker(s: string, i: nat)
    requires i < MarkerIn(s)
    ensures '0' <= s[i] <= '9'
  {
  }

  /** The backslash goes before punctuation, after spaces and digits only. */
  lemma MarkerIsPunctuation(line: string)
    requires MarkerAt(line) != -1
    ensures var at := MarkerAt(line);
            && AsciiPunctuation(line[at]) && !Special(line[at])
            && forall i | 0 <= i < at :: line[i] == ' ' || '0' <= line[i] <= '9'
  {
    var k := Indent(line);
    var s := line[k..];
    MarkerInIsPunctuation(s);
    forall i | 0 <= i < k + MarkerIn(s) ensures line[i] == ' ' || '0' <= line[i] <= '9' {
      if i >= k { DigitsBeforeMarker(s, i - k); }
    }
  }

  lemma BackslashIsRead(s: string)
    requires s != "" && AsciiPunctuation(s[0]) && !Special(s[0])
    ensures Unescape("\\" + s) == Unescape(s) && (Inert("\\" + s) <==> Inert(s))
  {
    assert ("\\" + s)[2..] == s[1..];
  }

  lemma InsertedBetween(p: string, s: string)
    requires s != "" && AsciiPunctuation(s[0]) && !Special(s[0]) && forall i | 0 <= i < |p| :: !Special(p[i])
    ensures Unescape(p + "\\" + s) == Unescape(p + s) && (Inert(p + "\\" + s) <==> Inert(p + s))
  {
    BackslashIsRead(s);
    PlainPrefix(p, s);
    PlainPrefix(p, "\\" + s);
    Regroup(p, "\\", s);
  }

  lemma InsertedBackslashIsRead(line: string, at: nat)
    requires at < |line| && AsciiPunctuation(line[at]) && !Special(line[at])
    requires forall i | 0 <= i < at :: !Special(line[i])
    ensures Unescape(line[..at] + "\\" + line[at..]) == Unescape(line)
    ensures Inert(line[..at] + "\\" + line[at..]) <==> Inert(line)
  {
    InsertedBetween(line[..at], line[at..]);
    assert line == line[..at] + line[at..];
  }

  lemma LineStartReadsSame(line: string)
    ensures Unescape(EscapeLineStart(line)) == Unescape(line)
    ensures Inert(EscapeLineStart(line)) <==> Inert(line)
  {
    var at := MarkerAt(line);
    if at != -1 {
      MarkerIsPunctuation(line);
      assert forall i | 0 <= i < at :: !Special(line[i]);
      InsertedBackslashIsRead(line, at);
    }
  }

  // -------------------------------------------------------- markers are defused

  lemma IndentOf(p: string, s: string)
    requires forall i | 0 <= i < |p| :: p[i] == ' '
    requires s == "" || s[0] != ' '
    ensures Indent(p + s) == |p|
  {
    assert forall i | 0 <= i < |p| :: (p + s)[i] == p[i];
    assert s != "" ==> (p + s)[|p|] == s[0];
  }

  lemma RunOf(p: string, s: string, first: char, last: char)
    requires forall i | 0 <= i < |p| :: first <= p[i] <= last
    requires s == "" || !(first <= s[0] <= last)
    ensures Run(p + s, first, last) == |p|
  {
    assert forall i | 0 <= i < |p| :: (p + s)[i] == p[i];
    assert s != "" ==> (p + s)[|p|] == s[0];
  }

  lemma BackslashIsNoMarker(digits: string, tail: string)
    requires forall i | 0 <= i < |digits| :: '0' <= digits[i] <= '9'
    requires tail != "" && tail[0] == '\\'
    ensures MarkerIn(digits + tail) == -1
  {
    var e := digits + tail;
    RunOf(digits, tail, '0', '9');
    assert e[|digits|] == '\\';
    assert e[0] == '\\' || '0' <= e[0] <= '9';
  }

  /** Spaces, digits and a backslash start no marker. */
  lemma BackslashDefuses(spaces: string, digits: string, tail: string)
    requires forall i | 0 <= i < |spaces| :: spaces[i] == ' '
    requires forall i | 0 <= i < |digits| :: '0' <= digits[i] <= '9'
    requires tail != "" && tail[0] == '\\'
    ensures MarkerAt(spaces + (digits + tail)) == -1
  {
    BackslashIsNoMarker(digits, tail);
    IndentOf(spaces, digits + tail);
    assert (spaces + (digits + tail))[|spaces|..] == digits + tail;
  }

  lemma CutAt(line: string, k: nat, at: nat)
    requires k <= at <= |line|
    ensures line[..at] + "\\" + line[at..] == line[..k] + (line[k..at] + ("\\" + line[at..]))
  {
    assert line[..at] == line[..k] + line[k..at];
  }

  lemma EscapedLineParts(line: string) returns (spaces: string, digits: string, tail: string)
    requires MarkerAt(line) != -1
    ensures EscapeLineStart(line) == spaces + (digits + tail)
    ensures (forall i | 0 <= i < |spaces| :: spaces[i] == ' ') && tail != "" && tail[0] == '\\'
    ensures forall i | 0 <= i < |digits| :: '0' <= digits[i] <= '9'
  {
    var at, k := MarkerAt(line), Indent(line);
    spaces, digits, tail := line[..k], line[k..at], "\\" + line[at..];
    forall i | 0 <= i < |digits| ensures '0' <= digits[i] <= '9' {
      assert digits[i] == line[k..][i];
    }
    CutAt(line, k, at);
  }

  /** No pattern matches an escaped line, so escaping is done once and for all. */
  lemma MarkerIsDefused(line: string)
    ensures MarkerAt(EscapeLineStart(line)) == -1
  {
    if MarkerAt(line) != -1 {
      var spaces, digits, tail := EscapedLineParts(line);
      BackslashDefuses(spaces, digits, tail);
    }
  }

  lemma EscapedLineStaysOneLine(line: string)
    requires '\n' !in line
    ensures '\n' !in EscapeLineStart(line)
  {
  }

  /** The lines of the escaped text are the escaped lines of the text. */
  lemma EscapedLines(s: string)
    ensures Split(LineStartsEscaped(s), '\n') == EscapeLines(Split(s, '\n'))
  {
    var lines := Split(s, '\n');
    forall i | 0 <= i < |lines| ensures '\n' !in EscapeLines(lines)[i] {
      SplitHasNoSep(s, '\n', i);
      EscapedLineStaysOneLine(lines[i]);
    }
    SplitJoin(EscapeLines(lines), '\n');
  }

  /** Escaping line starts twice is escaping them once. */
  lemma LineStartsEscapedOnce(s: string)
    ensures LineStartsEscaped(LineStartsEscaped(s)) == LineStartsEscaped(s)
    ensures forall line | line in Split(LineStartsEscaped(s), '\n') :: MarkerAt(line) == -1
  {
    var once := EscapeLines(Split(s, '\n'));
    EscapedLines(s);
    forall i | 0 <= i < |once| ensures MarkerAt(once[i]) == -1 {
      MarkerIsDefused(Split(s, '\n')[i]);
    }
    assert EscapeLines(once) == once;
  }

  lemma {:induction false} JoinReadsSame(lines: seq<string>)
    requires lines != []
    ensures Unescape(Join(EscapeLines(lines), "\n")) == Unescape(Join(lines, "\n"))
    ensures Inert(Join(EscapeLines(lines), "\n")) <==> Inert(Join(lines, "\n"))
  {
    LineStartReadsSame(lines[0]);
    if |lines| > 1 {
      var tail := lines[1..];
      JoinReadsSame(tail);
      assert EscapeLines(lines)[1..] == EscapeLines(tail);
      ReadsAcrossLines(lines[0], Join(tail, "\n"));
      ReadsAcrossLines(EscapeLineStart(lines[0]), Join(EscapeLines(tail), "\n"));
    }
  }

  /** Whatever the text, a reader undoing escapes reads it with its line starts
      escaped as it reads it without. */
  lemma LineStartsReadSame(s: string)
    ensures Unescape(LineStartsEscaped(s)) == Unescape(s)
    ensures Inert(LineStartsEscaped(s)) <==> Inert(s)
  {
    JoinSplit(s, '\n');
    JoinReadsSame(Split(s, '\n'));
  }

  lemma {:induction false} InertLines(lines: seq<string>, i: nat)
    requires i < |lines| && Inert(Join(lines, "\n"))
    ensures Inert(lines[i])
  {
    if |lines| > 1 {
      ReadsAcrossLines(lines[0], Join(lines[1..], "\n"));
      if i > 0 { InertLines(lines[1..], i - 1); }
    }
  }

  // ---------------------------------------------- block starts (sections 4, 5)

  /** A thematic break: three or more of one of three characters, and blanks (section 4.1). */
  predicate ThematicBreak(s: string) {
    && s != "" && s[0] in "-_*"
    && (forall i | 0 <= i < |s| :: s[i] == s[0] || IsBlank(s[i]))
    && multiset(s)[s[0]] >= 3
  }

  /** An ATX heading (section 4.2). */
  predicate AtxHeading(s: string) {
    exists h | 1 <= h <= 6 && h <= |s| :: (forall i | 0 <= i < h :: s[i] == '#') && EndsAt(s, h)
  }

  /** A run of one character up to h, then blanks. */
  predicate RunThenBlanks(s: string, h: nat) {
    1 <= h <= |s| && (forall i | 0 <= i < h :: s[i] == s[0]) && forall i | h <= i < |s| :: IsBlank(s[i])
  }

  /** A setext heading underline (section 4.3). */
  predicate SetextUnderline(s: string) {
    s != "" && (s[0] == '=' || s[0] == '-') && exists h: nat | h <= |s| :: RunThenBlanks(s, h)
  }

  /** A code fence opens (section 4.5). */
  predicate FenceOpens(s: string) {
    |s| >= 3 && (s[0] == '`' || s[0] == '~') && s[1] == s[0] && s[2] == s[0]
  }

  /** A block quote or bullet list item starts (sections 5.1, 5.2). */
  predicate ContainerStarts(s: string) {
    s != "" && (s[0] == '>' || (s[0] in "-+*" && EndsAt(s, 1)))
  }

  /** An ordered list item starts: one to nine digits and a delimiter (section 5.2). */
  predicate OrderedStarts(s: string) {
    exists d | 1 <= d <= 9 && d < |s| ::
      (forall i | 0 <= i < d :: '0' <= s[i] <= '9') && (s[d] == '.' || s[d] == ')') && EndsAt(s, d + 1)
  }

  /** An unindented line that starts or closes a block; raw HTML starts with an
      angle bracket (section 4.6). */
  predicate Opens(s: string) {
    || ThematicBreak(s) || AtxHeading(s) || SetextUnderline(s) || FenceOpens(s) || ContainerStarts(s)
    || OrderedStarts(s) || (s != "" && s[0] == '<')
  }

  /** At most three spaces may come before. */
  predicate StartsBlock(line: string) {
    Indent(line) <= 3 && Opens(line[Indent(line)..])
  }

  lemma AtxIsMatched(s: string)
    requires AtxHeading(s)
    ensures AtxLine(s)
  {
    var h :| 1 <= h <= 6 && h <= |s| && (forall i | 0 <= i < h :: s[i] == '#') && EndsAt(s, h);
    assert s == s[..h] + s[h..];
    RunOf(s[..h], s[h..], '#', '#');
  }

  lemma OrderedIsMatched(s: string)
    requires OrderedStarts(s)
    ensures OrderedLine(s)
  {
    var d :| 1 <= d <= 9 && d < |s| && (forall i | 0 <= i < d :: '0' <= s[i] <= '9')
             && (s[d] == '.' || s[d] == ')') && EndsAt(s, d + 1);
    assert s == s[..d] + s[d..];
    RunOf(s[..d], s[d..], '0', '9');
  }

  lemma UnmarkedOpensNothing(s: string)
    requires MarkerIn(s) == -1 && (s == "" || s[0] == '\\' || !Special(s[0]))
    ensures !Opens(s)
  {
    if s != "" && s[0] != '\\' {
      if AtxHeading(s) { AtxIsMatched(s); }
      if OrderedStarts(s) { OrderedIsMatched(s); }
    }
  }

  lemma InertAfterIndent(line: string)
    requires Inert(line)
    ensures var s := line[Indent(line)..]; s == "" || s[0] == '\\' || !Special(s[0])
  {
    var k := Indent(line);
    assert line == line[..k] + line[k..];
    PlainPrefix(line[..k], line[k..]);
  }

  /** A line no pattern matches, with its special characters escaped, starts no block. */
  lemma UnmarkedLineStartsNothing(line: string)
    requires MarkerAt(line) == -1 && Inert(line)
    ensures !StartsBlock(line)
  {
    InertAfterIndent(line);
    if Indent(line) <= 3 {
      UnmarkedOpensNothing(line[Indent(line)..]);
    }
  }

  /** Ordinary text survives: whatever the text, undoing the escapes gives it back,
      every inline delimiter in it is escaped, and no line of it starts a block. */
  lemma OrdinaryTextStaysOrdinary(s: string)
    ensures var guarded := LineStartsEscaped(EscapeText(s));
            && Unescape(guarded) == s && Inert(guarded)
            && forall line | line in Split(guarded, '\n') :: !StartsBlock(line)
  {
    var guarded := LineStartsEscaped(EscapeText(s));
    var lines := Split(guarded, '\n');
    EscapeTextComesBack(s);
    LineStartsReadSame(EscapeText(s));
    LineStartsEscapedOnce(EscapeText(s));
    JoinSplit(guarded, '\n');
    forall i | 0 <= i < |lines| ensures !StartsBlock(lines[i]) {
      InertLines(lines, i);
      UnmarkedLineStartsNothing(lines[i]);
    }
  }
}
