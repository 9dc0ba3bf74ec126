/** List items and block quotes, and readers of both after CommonMark 0.31.2. */
module Containers {
  import opened Wrappers
  import opened Text
  import opened Lines
  import opened Escapes

  function Spaces(n: nat): (s: string)
    ensures |s| == n && forall i | 0 <= i < n :: s[i] == ' '
  {
    if n == 0 then "" else " " + Spaces(n - 1)
  }

  predicate IsSpaceChar(c: char) {
    c == ' '
  }

  // --------------------------------------------------------------- the writer

  function ItemLine(marker: string, i: nat, line: string): string {
    if i == 0 then TrimRight(marker + line, IsSpaceChar)
    else if line == "" then ""
    else Spaces(|marker|) + line
  }

  /** The lines of a body from line i on, as they stand in the item. */
  function ItemLines(marker: string, i: nat, lines: seq<string>): (r: seq<string>)
    ensures |r| == |lines| && forall j | 0 <= j < |lines| :: r[j] == ItemLine(marker, i + j, lines[j])
    decreases lines
  {
    if lines == [] then [] else [ItemLine(marker, i, lines[0])] + ItemLines(marker, i + 1, lines[1..])
  }

  function ItemOf(marker: string, body: string): string {
    Join(ItemLines(marker, 0, Split(body, '\n')), "\n")
  }

  /** mdItem. */
  method MdItem(marker: string, body: string) returns (s: string)
    ensures s == ItemOf(marker, body)
  {
    var indent := Spaces(|marker|);
    var lines := Split(body, '\n');
    for i := 0 to |lines|
      invariant |lines| == |Split(body, '\n')|
      invariant forall j | 0 <= j < i :: lines[j] == ItemLine(marker, j, Split(body, '\n')[j])
      invariant forall j | i <= j < |lines| :: lines[j] == Split(body, '\n')[j]
    {
      if i == 0 {
        lines := lines[i := TrimRight(marker + lines[i], IsSpaceChar)];
      } else if lines[i] != "" {
        lines := lines[i := indent + lines[i]];
      }
    }
    assert lines == ItemLines(marker, 0, Split(body, '\n'));
    s := Join(lines, "\n");
  }

  function QuotedLine(line: string): string {
    if line == "" then ">" else "> " + line
  }

  function QuotedLines(lines: seq<string>): (r: seq<string>)
    ensures |r| == |lines| && forall i | 0 <= i < |lines| :: r[i] == QuotedLine(lines[i])
  {
    if lines == [] then [] else [QuotedLine(lines[0])] + QuotedLines(lines[1..])
  }

  function QuoteOf(body: string): string {
    if body == "" then "" else Join(QuotedLines(Split(body, '\n')), "\n")
  }

  /** mdQuote. */
  method MdQuote(body: string) returns (s: string)
    ensures s == QuoteOf(body)
  {
    if body == "" {
      return "";
    }
    var lines := Split(body, '\n');
    for i := 0 to |lines|
      invariant |lines| == |Split(body, '\n')|
      invariant forall j | 0 <= j < i :: lines[j] == QuotedLine(Split(body, '\n')[j])
      invariant forall j | i <= j < |lines| :: lines[j] == Split(body, '\n')[j]
    {
      lines := lines[i := if lines[i] == "" then ">" else "> " + lines[i]];
    }
    assert lines == QuotedLines(Split(body, '\n'));
    s := Join(lines, "\n");
  }

  // ------------------------------------------------- block quotes (section 5.1)

  /** A line of a quote without its marker, which takes one following space along. */
  function Unquoted(line: string): string {
    if |line| >= 2 && line[1] == ' ' then line[2..] else if line != "" then line[1..] else ""
  }

  function UnquotedLines(lines: seq<string>): (r: seq<string>)
    ensures |r| == |lines| && forall i | 0 <= i < |lines| :: r[i] == Unquoted(lines[i])
  {
    if lines == [] then [] else [Unquoted(lines[0])] + UnquotedLines(lines[1..])
  }

  /** The inside of a quote: every line must carry the marker. */
  function ReadQuote(s: string): (r: (bool, string)) {
    var lines := Split(s, '\n');
    ((forall line | line in lines :: line != "" && line[0] == '>'), Join(UnquotedLines(lines), "\n"))
  }

  /** Every line of a quote carries the marker, and taking the markers off gives
      back exactly the body. */
  lemma QuoteComesBack(body: string)
    requires body != ""
    ensures ReadQuote(QuoteOf(body)) == (true, body)
  {
    var lines := Split(body, '\n');
    var quoted := QuotedLines(lines);
    forall i | 0 <= i < |lines| ensures '\n' !in quoted[i] && Unquoted(quoted[i]) == lines[i] && quoted[i][0] == '>' {
      SplitHasNoSep(body, '\n', i);
      assert ("> " + lines[i])[2..] == lines[i];
    }
    SplitJoin(quoted, '\n');
    assert UnquotedLines(quoted) == lines;
    JoinSplit(body, '\n');
  }

  // ----------------------------------------- indentation in columns (section 2.2)

  /** The columns a space or tab takes at column col: tabs stop every four columns. */
  function Columns(c: char, col: nat): (n: nat)
    requires IsBlank(c)
    ensures 1 <= n <= 4
  {
    if c == ' ' then 1 else 4 - col % 4
  }

  /** How many columns of indentation s has when it starts at column col. */
  function IndentColumns(s: string, col: nat): nat {
    if s == "" || !IsBlank(s[0]) then 0 else Columns(s[0], col) + IndentColumns(s[1..], col + Columns(s[0], col))
  }

  /** s with up to w columns of indentation taken off; what is left of a tab becomes spaces. */
  function Outdented(s: string, col: nat, w: nat): string {
    if w == 0 || s == "" || !IsBlank(s[0]) then s
    else
      var n := Columns(s[0], col);
      if n <= w then Outdented(s[1..], col + n, w - n) else Spaces(n - w) + s[1..]
  }

  lemma {:induction false} IndentAdds(n: nat, s: string, col: nat)
    ensures IndentColumns(Spaces(n) + s, col) == n + IndentColumns(s, col + n)
    ensures Outdented(Spaces(n) + s, col, n) == s
  {
    if n == 0 {
      assert Spaces(0) + s == s;
    } else {
      IndentAdds(n - 1, s, col + 1);
      assert Spaces(n) + s == " " + (Spaces(n - 1) + s);
      assert (Spaces(n) + s)[1..] == Spaces(n - 1) + s;
    }
  }

  /** Taking all the indentation off leaves a text that starts with none. */
  lemma {:induction false} OutdentedWholly(s: string, col: nat)
    requires !Blank(s)
    ensures var r := Outdented(s, col, IndentColumns(s, col)); r != "" && !IsBlank(r[0])
  {
    if s != "" && IsBlank(s[0]) {
      var n := Columns(s[0], col);
      assert forall i | 0 < i < |s| :: s[i] == s[1..][i - 1];
      OutdentedWholly(s[1..], col + n);
    }
  }

  // --------------------------------------------------- list items (section 5.2)

  /** The width of the list marker s starts with, 0 when it starts with none. */
  function MarkerWidth(s: string): (w: nat)
    ensures w <= |s|
  {
    if s == "" then 0
    else if s[0] == '-' || s[0] == '+' || s[0] == '*' then 1
    else
      var d := Run(s, '0', '9');
      if 1 <= d <= 9 && d < |s| && (s[d] == '.' || s[d] == ')') then d + 1 else 0
  }

  /** The column, counted from the marker, where the content of an item starts, and
      what of the content is on the line of the marker: one to four columns of
      indentation belong to the marker; only one does when there are more, which start
      indented code, or when nothing follows. None when no space follows the marker. */
  function Opening(rest: string, col: nat, w: nat): Option<(nat, string)> {
    var n := IndentColumns(rest, col + w);
    if Blank(rest) then Some((w + 1, ""))
    else if n == 0 then None
    else if n >= 5 then Some((w + 1, Outdented(rest, col + w, 1)))
    else Some((w + n, Outdented(rest, col + w, n)))
  }

  predicate Belongs(line: string, col: nat, width: nat) {
    Blank(line) || IndentColumns(line, col) >= width
  }

  /** How many of the lines belong to an item in a row. */
  function Taken(lines: seq<string>, col: nat, width: nat): (k: nat)
    ensures k <= |lines|
  {
    if lines == [] || !Belongs(lines[0], col, width) then 0 else 1 + Taken(lines[1..], col, width)
  }

  function OutdentedLines(lines: seq<string>, col: nat, width: nat): (r: seq<string>)
    ensures |r| == |lines| && forall i | 0 <= i < |lines| :: r[i] == Outdented(lines[i], col, width)
  {
    if lines == [] then [] else [Outdented(lines[0], col, width)] + OutdentedLines(lines[1..], col, width)
  }

  /** The content of an item and the lines left after it. */
  datatype Item = Item(content: string, left: seq<string>)

  /** What starts on the line of the marker goes on through the lines that belong. */
  function Contents(first: string, later: seq<string>, col: nat, width: nat): Item {
    var k := Taken(later, col, width);
    Item(Join([first] + OutdentedLines(later[..k], col, width), "\n"), later[k..])
  }

  /** The list item that starts s, which stands at column col: a thematic break takes
      precedence, and at most one blank line starts an item. */
  function ReadItem(s: string, col: nat): Option<Item> {
    var lines := Split(s, '\n');
    var w := MarkerWidth(lines[0]);
    if w == 0 || ThematicBreak(lines[0]) then None
    else
      match Opening(lines[0][w..], col, w)
      case None => None
      case Some((width, first)) =>
        if Blank(lines[0][w..]) && |lines| > 1 && Blank(lines[1]) then Some(Item("", lines[1..]))
        else Some(Contents(first, lines[1..], col, width))
  }

  // ---------------------------------------------------- when items come back

  /** The markers of the writer: a dash, or at most nine digits and a dot. */
  predicate IsMarker(marker: string) {
    || marker == "- "
    || (3 <= |marker| <= 11 && marker[|marker| - 1] == ' ' && marker[|marker| - 2] == '.'
        && forall i | 0 <= i < |marker| - 2 :: '0' <= marker[i] <= '9')
  }

  function FirstLine(line: string): string {
    if Blank(line) then "" else TrimRight(line, IsSpaceChar)
  }

  /** The body without the spaces at the end of its first line, of which nothing is
      left when it is blank. */
  function FirstLineTrimmed(body: string): string {
    var lines := Split(body, '\n');
    Join([FirstLine(lines[0])] + lines[1..], "\n")
  }

  /** A body an item can hold. Behind its marker the first line does not make a
      thematic break; it is not indented, or so far that it is code; and when it is
      blank the next one is not. */
  predicate FitsItem(marker: string, body: string, col: nat) {
    var lines := Split(body, '\n');
    var indent := IndentColumns(lines[0], col + |marker|);
    && !ThematicBreak(ItemLine(marker, 0, lines[0]))
    && (if Blank(lines[0]) then |lines| == 1 || !Blank(lines[1]) else indent == 0 || indent >= 4)
  }

  lemma {:induction false} TrimRightOf(p: string, s: string)
    requires TrimRight(s, IsSpaceChar) != ""
    ensures TrimRight(p + s, IsSpaceChar) == p + TrimRight(s, IsSpaceChar)
  {
    if s[|s| - 1] == ' ' {
      assert (p + s)[..|p + s| - 1] == p + s[..|s| - 1];
      TrimRightOf(p, s[..|s| - 1]);
    }
  }

  lemma {:induction false} TrimRightWhole(p: string, s: string)
    requires TrimRight(s, IsSpaceChar) == ""
    ensures TrimRight(p + s, IsSpaceChar) == TrimRight(p, IsSpaceChar)
  {
    if s == "" {
      assert p + s == p;
    } else {
      assert (p + s)[..|p + s| - 1] == p + s[..|s| - 1];
      TrimRightWhole(p, s[..|s| - 1]);
    }
  }

  /** Trimming the end of a line leaves its indentation. */
  lemma TrimKeepsIndent(s: string, col: nat)
    requires !Blank(s)
    ensures var t := TrimRight(s, IsSpaceChar); !Blank(t) && IndentColumns(t, col) == IndentColumns(s, col)
  {
    var t := TrimRight(s, IsSpaceChar);
    var i :| 0 <= i < |s| && !IsBlank(s[i]);
    assert i < |t| && t[i] == s[i];
    PrefixKeepsIndent(t, s, col);
  }

  lemma {:induction false} PrefixKeepsIndent(t: string, s: string, col: nat)
    requires t <= s && !Blank(t)
    ensures IndentColumns(t, col) == IndentColumns(s, col)
  {
    if IsBlank(t[0]) {
      assert forall i | 0 < i < |t| :: t[i] == t[1..][i - 1];
      PrefixKeepsIndent(t[1..], s[1..], col + Columns(t[0], col));
    }
  }

  lemma {:induction false} DigitRun(digits: string, tail: string)
    requires (forall i | 0 <= i < |digits| :: '0' <= digits[i] <= '9') && tail != "" && tail[0] == '.'
    ensures Run(digits + tail, '0', '9') == |digits|
  {
    RunOf(digits, tail, '0', '9');
  }

  /** A reader finds the marker of the writer, whatever follows it. */
  lemma MarkerIsFound(marker: string, tail: string)
    requires IsMarker(marker)
    ensures var bare := marker[..|marker| - 1]; MarkerWidth(bare + tail) == |marker| - 1
  {
    var bare := marker[..|marker| - 1];
    if marker == "- " {
      assert (bare + tail)[0] == '-';
    } else {
      var d := |marker| - 2;
      var digits := marker[..d];
      assert bare + tail == digits + ("." + tail);
      DigitRun(digits, "." + tail);
      assert (bare + tail)[d] == '.' && (bare + tail)[0] == marker[0];
    }
  }

  lemma BareMarker(marker: string)
    requires IsMarker(marker)
    ensures var bare := marker[..|marker| - 1]; marker == bare + " " && TrimRight(bare, IsSpaceChar) == bare
  {
    var bare := marker[..|marker| - 1];
    assert bare[|bare| - 1] != ' ';
  }

  /** Behind a line of spaces the marker stands bare. */
  lemma SpacesLine(marker: string, line: string)
    requires IsMarker(marker) && TrimRight(line, IsSpaceChar) == ""
    ensures ItemLine(marker, 0, line) == marker[..|marker| - 1] && Blank(line)
  {
    BareMarker(marker);
    TrimRightWhole(marker, line);
    TrimRightWhole(marker[..|marker| - 1], " ");
    assert TrimRight(" ", IsSpaceChar) == "";
  }

  lemma TextLine(marker: string, line: string)
    requires IsMarker(marker) && TrimRight(line, IsSpaceChar) != ""
    ensures var t := TrimRight(line, IsSpaceChar);
            ItemLine(marker, 0, line) == marker[..|marker| - 1] + (" " + t) && (Blank(" " + t) <==> Blank(line))
  {
    BareMarker(marker);
    TrimRightOf(marker, line);
    Regroup(marker[..|marker| - 1], " ", TrimRight(line, IsSpaceChar));
    TrimKeepsBlank(line, TrimRight(line, IsSpaceChar));
  }

  lemma TrimKeepsBlank(line: string, t: string)
    requires t <= line && forall i | |t| <= i < |line| :: line[i] == ' '
    ensures Blank(" " + t) <==> Blank(line)
  {
    var s := " " + t;
    assert forall i | 0 <= i < |t| :: s[i + 1] == t[i] == line[i];
    assert s[0] == ' ';
  }

  /** The line of the marker: the bare marker, and what stands behind it. */
  lemma MarkerLine(marker: string, line: string) returns (rest: string)
    requires IsMarker(marker)
    ensures ItemLine(marker, 0, line) == marker[..|marker| - 1] + rest
    ensures Blank(rest) <==> Blank(line)
    ensures !Blank(line) ==> rest == " " + TrimRight(line, IsSpaceChar)
  {
    if TrimRight(line, IsSpaceChar) == "" {
      SpacesLine(marker, line);
      rest := "";
      assert marker[..|marker| - 1] + "" == marker[..|marker| - 1];
    } else {
      TextLine(marker, line);
      rest := " " + TrimRight(line, IsSpaceChar);
    }
  }

  /** What the reader makes of a space and a text behind a marker. */
  lemma OpeningOf(t: string, col: nat, w: nat)
    requires !Blank(t)
    ensures var n := IndentColumns(t, col + w + 1);
            Opening(" " + t, col, w)
            == Some(if n == 0 || n >= 4 then (w + 1, t) else (w + 1 + n, Outdented(t, col + w + 1, n)))
  {
    var rest, n := " " + t, IndentColumns(t, col + w + 1);
    assert rest[1..] == t && rest[0] == ' ';
    assert forall i | 0 <= i < |t| :: rest[i + 1] == t[i];
    assert IndentColumns(rest, col + w) == 1 + n;
    assert Outdented(rest, col + w, 1) == Outdented(t, col + w + 1, 0) == t;
    assert n > 0 ==> Outdented(rest, col + w, 1 + n) == Outdented(t, col + w + 1, n);
  }

  lemma {:induction false} AllTaken(lines: seq<string>, col: nat, width: nat)
    requires forall i | 0 <= i < |lines| :: Belongs(lines[i], col, width)
    ensures Taken(lines, col, width) == |lines|
  {
    if lines != [] { AllTaken(lines[1..], col, width); }
  }

  lemma LaterItemLine(marker: string, i: nat, line: string, col: nat)
    requires i > 0
    ensures Belongs(ItemLine(marker, i, line), col, |marker|)
    ensures Outdented(ItemLine(marker, i, line), col, |marker|) == line
  {
    IndentAdds(|marker|, line, col);
  }

  lemma ItemLinesStayLines(marker: string, body: string)
    requires '\n' !in marker
    ensures Split(ItemOf(marker, body), '\n') == ItemLines(marker, 0, Split(body, '\n'))
  {
    var lines := Split(body, '\n');
    var item := ItemLines(marker, 0, lines);
    forall i | 0 <= i < |lines| ensures '\n' !in item[i] {
      SplitHasNoSep(body, '\n', i);
    }
    SplitJoin(item, '\n');
  }

  /** The lines after the first all come back at the width of the marker. */
  lemma LaterLinesComeBack(marker: string, lines: seq<string>, first: string, col: nat)
    requires lines != []
    ensures Contents(first, ItemLines(marker, 0, lines)[1..], col, |marker|)
         == Item(Join([first] + lines[1..], "\n"), [])
  {
    var later := ItemLines(marker, 0, lines)[1..];
    forall i | 0 <= i < |later|
      ensures Belongs(later[i], col, |marker|) && Outdented(later[i], col, |marker|) == lines[1..][i]
    {
      LaterItemLine(marker, i + 1, lines[i + 1], col);
    }
    AllTaken(later, col, |marker|);
    assert later[..|later|] == later && OutdentedLines(later, col, |marker|) == lines[1..];
  }

  lemma MarkerOnOneLine(marker: string)
    requires IsMarker(marker)
    ensures '\n' !in marker
  {
  }

  lemma SecondLineBlank(marker: string, lines: seq<string>)
    requires lines != []
    ensures |lines| > 1 ==> (Blank(ItemLines(marker, 0, lines)[1]) <==> Blank(lines[1]))
  {
    if |lines| > 1 {
      var line, out := lines[1], ItemLine(marker, 1, lines[1]);
      if line != "" {
        assert forall i | 0 <= i < |line| :: line[i] == out[|marker| + i];
      }
    }
  }

  /** The lines the reader finds in an item, and its marker. */
  lemma ItemStarts(marker: string, body: string) returns (lines: seq<string>, rest: string)
    requires IsMarker(marker)
    ensures lines == ItemLines(marker, 0, Split(body, '\n')) && Split(ItemOf(marker, body), '\n') == lines
    ensures var line := Split(body, '\n')[0];
            && MarkerWidth(lines[0]) == |marker| - 1 && lines[0][|marker| - 1..] == rest
            && (Blank(rest) <==> Blank(line)) && (!Blank(line) ==> rest == " " + TrimRight(line, IsSpaceChar))
  {
    lines := ItemLines(marker, 0, Split(body, '\n'));
    MarkerOnOneLine(marker);
    ItemLinesStayLines(marker, body);
    rest := MarkerLine(marker, Split(body, '\n')[0]);
    MarkerIsFound(marker, rest);
  }

  lemma FittingOpening(marker: string, line: string, rest: string, col: nat)
    requires IsMarker(marker) && (Blank(rest) <==> Blank(line))
    requires !Blank(line) ==> rest == " " + TrimRight(line, IsSpaceChar)
    requires !Blank(line) ==> var n := IndentColumns(line, col + |marker|); n == 0 || n >= 4
    ensures Opening(rest, col, |marker| - 1) == Some((|marker|, FirstLine(line)))
  {
    if !Blank(line) {
      TrimKeepsIndent(line, col + |marker|);
      OpeningOf(TrimRight(line, IsSpaceChar), col, |marker| - 1);
    }
  }

  lemma IndentedOpening(marker: string, line: string, col: nat) returns (width: nat, first: string)
    requires IsMarker(marker) && !Blank(line) && 1 <= IndentColumns(line, col + |marker|) <= 3
    ensures Opening(" " + TrimRight(line, IsSpaceChar), col, |marker| - 1) == Some((width, first))
    ensures first != "" && !IsBlank(first[0]) && width > |marker|
  {
    var t, n := TrimRight(line, IsSpaceChar), IndentColumns(line, col + |marker|);
    TrimKeepsIndent(line, col + |marker|);
    OpeningOf(t, col, |marker| - 1);
    OutdentedWholly(t, col + |marker|);
    width, first := |marker| + n, Outdented(t, col + |marker|, n);
  }

  lemma ItemReads(s: string, col: nat, lines: seq<string>, w: nat, width: nat, first: string)
    requires lines != [] && Split(s, '\n') == lines && !ThematicBreak(lines[0])
    requires MarkerWidth(lines[0]) == w > 0 && Opening(lines[0][w..], col, w) == Some((width, first))
    requires Blank(lines[0][w..]) && |lines| > 1 ==> !Blank(lines[1])
    ensures ReadItem(s, col) == Some(Contents(first, lines[1..], col, width))
  {
  }

  /** A first line the reader takes as the writer meant it: the item comes back whole. */
  lemma FittingItemComesBack(marker: string, body: string, col: nat)
    requires IsMarker(marker) && FitsItem(marker, body, col)
    ensures ReadItem(ItemOf(marker, body), col) == Some(Item(FirstLineTrimmed(body), []))
  {
    var line := Split(body, '\n')[0];
    var lines, rest := ItemStarts(marker, body);
    FittingOpening(marker, line, rest, col);
    SecondLineBlank(marker, Split(body, '\n'));
    ItemReads(ItemOf(marker, body), col, lines, |marker| - 1, |marker|, FirstLine(line));
    LaterLinesComeBack(marker, Split(body, '\n'), FirstLine(line), col);
  }

  lemma ContentsStart(first: string, later: seq<string>, col: nat, width: nat)
    requires first != ""
    ensures var item := Contents(first, later, col, width); item.content != "" && item.content[0] == first[0]
  {
  }

  /** An indented first line comes back without its indentation. */
  lemma IndentedItemIsCut(marker: string, body: string, col: nat)
    requires IsMarker(marker) && !ThematicBreak(ItemLine(marker, 0, Split(body, '\n')[0]))
    requires var line := Split(body, '\n')[0]; !Blank(line) && 1 <= IndentColumns(line, col + |marker|) <= 3
    ensures var r := ReadItem(ItemOf(marker, body), col);
            r.Some? && r.value.content != "" && !IsBlank(r.value.content[0])
  {
    var line := Split(body, '\n')[0];
    var lines, rest := ItemStarts(marker, body);
    var width, first := IndentedOpening(marker, line, col);
    ItemReads(ItemOf(marker, body), col, lines, |marker| - 1, width, first);
    ContentsStart(first, lines[1..], col, width);
  }

  lemma IndentShows(body: string, col: nat)
    requires var line := Split(body, '\n')[0]; !Blank(line) && IndentColumns(line, col) > 0
    ensures FirstLineTrimmed(body) != "" && IsBlank(FirstLineTrimmed(body)[0])
  {
    var line := Split(body, '\n')[0];
    TrimKeepsIndent(line, col);
    assert TrimRight(line, IsSpaceChar)[0] == line[0];
  }

  /** Two blank lines at the start leave the item empty and the rest outside. */
  lemma BlankStartIsCut(marker: string, body: string, col: nat)
    requires IsMarker(marker)
    requires var lines := Split(body, '\n'); |lines| > 1 && Blank(lines[0]) && Blank(lines[1])
    ensures var r := ReadItem(ItemOf(marker, body), col); r.Some? ==> r.value.left != []
  {
    var lines, rest := ItemStarts(marker, body);
    SecondLineBlank(marker, Split(body, '\n'));
  }

  /** Wherever the item stands, a reader gets back its body (but for spaces at the end
      of the first line) and leaves no line out if and only if the body fits an item. */
  lemma ItemComesBackExactly(marker: string, body: string, col: nat)
    requires IsMarker(marker)
    ensures ReadItem(ItemOf(marker, body), col) == Some(Item(FirstLineTrimmed(body), []))
       <==> FitsItem(marker, body, col)
  {
    var line := Split(body, '\n')[0];
    if FitsItem(marker, body, col) {
      FittingItemComesBack(marker, body, col);
    } else if ThematicBreak(ItemLine(marker, 0, line)) {
      BreakIsNoItem(marker, body, col);
    } else if Blank(line) {
      BlankStartIsCut(marker, body, col);
    } else {
      IndentedItemIsCut(marker, body, col);
      IndentShows(body, col + |marker|);
    }
  }

  lemma ShortLineIsLeft(first: string, line: string, col: nat, width: nat)
    requires !Belongs(line, col, width)
    ensures Contents(first, ["", line], col, width) == Item(first + "\n", [line])
  {
    var later := ["", line];
    assert later[1..] == [line] && later[..1] == [""];
    assert Taken([line], col, width) == 0 && Taken(later, col, width) == 1;
    assert OutdentedLines([""], col, width) == [""];
    assert [first, ""][1..] == [""] && Join([first, ""], "\n") == first + "\n" + "";
  }

  /** A first line indented by one to three columns makes the item wider than the writer
      indents, and what follows a blank line falls out of the list: so does "bar" of a
      body of "  foo", a blank line and "bar". */
  lemma SecondParagraphFallsOut(marker: string, body: string, second: string, col: nat)
    requires IsMarker(marker) && second != "" && !IsBlank(second[0])
    requires var lines := Split(body, '\n'); |lines| == 3 && lines[1..] == ["", second]
    requires var line := Split(body, '\n')[0];
             && !Blank(line) && 1 <= IndentColumns(line, col + |marker|) <= 3
             && !ThematicBreak(ItemLine(marker, 0, line))
    ensures var r := ReadItem(ItemOf(marker, body), col);
            r.Some? && r.value.left == [Spaces(|marker|) + second]
  {
    var line := Split(body, '\n')[0];
    var lines, rest := ItemStarts(marker, body);
    var out := Spaces(|marker|) + second;
    assert Split(body, '\n')[1..][0] == "" && Split(body, '\n')[1..][1] == second;
    assert lines[1..] == ["", out];
    var width, first := IndentedOpening(marker, line, col);
    ItemReads(ItemOf(marker, body), col, lines, |marker| - 1, width, first);
    IndentAdds(|marker|, second, col);
    assert out[|marker|] == second[0];
    ShortLineIsLeft(first, out, col, width);
  }

  lemma SplitOfThree(a: string, b: string)
    requires '\n' !in a && '\n' !in b
    ensures Split(a + ['\n'] + ([] + ['\n'] + b), '\n') == [a, "", b]
  {
    SplitPart(a, '\n', [] + ['\n'] + b);
    SplitPart("", '\n', b);
    SplitOfOne(b, '\n');
  }

  lemma TwoSpacesIndent(line: string, col: nat)
    requires |line| > 2 && line[0] == ' ' && line[1] == ' ' && !IsBlank(line[2])
    ensures !Blank(line) && IndentColumns(line, col) == 2
  {
    var t := line[1..];
    assert t[0] == ' ' && t[1..][0] == line[2];
    assert IndentColumns(t, col + 1) == 1 + IndentColumns(t[1..], col + 2) == 1;
  }

  /** ... as in a list item of two paragraphs, "  foo" and "bar". */
  lemma FooFallsApart(foo: string, bar: string, col: nat)
    requires foo == "  foo" && bar == "bar"
    ensures var r := ReadItem(ItemOf("- ", foo + ['\n'] + ([] + ['\n'] + bar)), col);
            r.Some? && r.value.left == [Spaces(2) + bar]
  {
    var body := foo + ['\n'] + ([] + ['\n'] + bar);
    SplitOfThree(foo, bar);
    TwoSpacesIndent(foo, col + 2);
    assert [foo, "", bar][1..] == ["", bar];
    var line := ItemLine("- ", 0, foo);
    assert ("- " + foo)[|"- " + foo| - 1] == 'o' && line == "- " + foo && line[4] == 'f';
    SecondParagraphFallsOut("- ", body, bar, col);
  }

  lemma BreakIsNoItem(marker: string, body: string, col: nat)
    requires IsMarker(marker) && ThematicBreak(ItemLine(marker, 0, Split(body, '\n')[0]))
    ensures ReadItem(ItemOf(marker, body), col) == None
  {
    var lines, rest := ItemStarts(marker, body);
  }

  lemma {:induction false} DashCount(s: string)
    requires forall i | 0 <= i < |s| :: s[i] == '-'
    ensures multiset(s)['-'] == |s|
  {
    if s != "" {
      DashCount(s[1..]);
      assert s == [s[0]] + s[1..];
    }
  }

  /** A horizontal rule as first block of a bullet item reads as a rule, not as an item. */
  lemma RuleSwallowsItem(rule: string, col: nat)
    requires |rule| >= 2 && forall i | 0 <= i < |rule| :: rule[i] == '-'
    ensures ReadItem(ItemOf("- ", rule), col) == None
  {
    SplitOfOne(rule, '\n');
    DashCount(rule);
    var s := "- " + rule;
    assert s == ['-', ' '] + rule && multiset(s) == multiset(['-', ' ']) + multiset(rule);
    assert s[|s| - 1] == '-' && TrimRight(s, IsSpaceChar) == s;
    BreakIsNoItem("- ", rule, col);
  }

  lemma NoMarkerNoItem(s: string, col: nat)
    requires MarkerWidth(Split(s, '\n')[0]) == 0
    ensures ReadItem(s, col) == None
  {
  }

  lemma LongNumberWidth(digits: string, tail: string)
    requires |digits| > 9 && (forall i | 0 <= i < |digits| :: '0' <= digits[i] <= '9')
    requires tail != "" && tail[0] == '.'
    ensures MarkerWidth(digits + tail) == 0
  {
    DigitRun(digits, tail);
    assert (digits + tail)[0] == digits[0];
  }

  /** Trimming spaces at the end stops at a character that is none. */
  lemma TrimStops(p: string, c: char, s: string) returns (tail: string)
    requires c != ' '
    ensures TrimRight(p + [c] + s, IsSpaceChar) == p + tail && tail != "" && tail[0] == c
  {
    var whole := p + [c] + s;
    var t := TrimRight(whole, IsSpaceChar);
    assert whole[|p|] == c;
    tail := t[|p|..];
    assert t[..|p|] == whole[..|p|] == p;
  }

  /** A number of ten digits or more starts no item. */
  lemma LongNumberIsNoMarker(digits: string, body: string, col: nat)
    requires |digits| > 9 && forall i | 0 <= i < |digits| :: '0' <= digits[i] <= '9'
    ensures ReadItem(ItemOf(digits + ". ", body), col) == None
  {
    var line := Split(body, '\n')[0];
    ItemLinesStayLines(digits + ". ", body);
    assert digits + ". " + line == digits + ['.'] + (" " + line);
    var tail := TrimStops(digits, '.', " " + line);
    LongNumberWidth(digits, tail);
    NoMarkerNoItem(ItemOf(digits + ". ", body), col);
  }
}
