/** ATX headings, and a reader of them after CommonMark 0.31.2. */
module Headings {
  import opened Wrappers
  import opened Text
  import opened Lines
  import opened Escapes

  function Hashes(n: nat): (s: string)
    ensures |s| == n && forall i | 0 <= i < n :: s[i] == '#'
  {
    if n == 0 then "" else "#" + Hashes(n - 1)
  }

  /** A heading of mdBlock. */
  function HeadingOf(level: nat, text: string): string {
    Hashes(level) + " " + text
  }

  // --------------------------------------------------- headings (section 4.2)

  predicate IsHash(c: char) {
    c == '#'
  }

  /** The hashes a line ends with close it when nothing or a blank stands before them. */
  predicate HasClosing(s: string) {
    var t := TrimRight(s, IsHash);
    |t| < |s| && (t == "" || IsBlank(t[|t| - 1]))
  }

  function WithoutClosing(s: string): string {
    if HasClosing(s) then TrimRight(TrimRight(s, IsHash), IsBlank) else s
  }

  datatype HeadingLine = HeadingLine(level: nat, text: string, rest: string)

  /** One to six hashes, a blank or the end of the line, and the text up to a closing
      sequence, without blanks at its ends. */
  function ReadHeading(s: string): Option<HeadingLine> {
    var n := Run(s, '#', '#');
    var k := LineLength(s);
    HashesStayOnLine(s);
    if !(1 <= n <= 6) || (n < k && !IsBlank(s[n])) then None
    else
      var line := TrimBlanks(s[n..k]);
      Some(HeadingLine(n, WithoutClosing(line), s[k..]))
  }

  lemma HashesStayOnLine(s: string)
    ensures Run(s, '#', '#') <= LineLength(s)
  {
    var k := LineLength(s);
    assert k < |s| ==> EndsLine(s[k]) && s[k] != '#';
  }

  /** A text a heading can hold: on one line, without blanks at its ends, and not ending
      in hashes of their own. */
  predicate FitsHeading(text: string) {
    OneLine(text) && Tight(text) && !HasClosing(text)
  }

  lemma HashedLine(hashes: string, line: string, rest: string)
    requires forall i | 0 <= i < |hashes| :: hashes[i] == '#'
    requires OneLine(line) && (rest == "" || EndsLine(rest[0]))
    ensures var s, k := hashes + (" " + line) + rest, |hashes| + 1 + |line|;
            && Run(s, '#', '#') == |hashes| && s[|hashes|] == ' ' && LineLength(s) == k
            && s[|hashes|..k] == " " + line && s[k..] == rest
  {
    var whole := hashes + (" " + line);
    assert OneLine(whole) by {
      assert forall i | 0 <= i < |whole| :: if i < |hashes| then whole[i] == '#' else
          if i == |hashes| then whole[i] == ' ' else whole[i] == line[i - |hashes| - 1];
    }
    LineOf(whole, rest);
    Regroup(hashes, " " + line, rest);
    RunOf(hashes, " " + line + rest, '#', '#');
  }

  /** The reader finds the level and the text, trimmed, of a line. */
  lemma LineReads(level: nat, line: string, rest: string)
    requires 1 <= level <= 6
    requires OneLine(line) && (rest == "" || EndsLine(rest[0]))
    ensures ReadHeading(HeadingOf(level, line) + rest)
         == Some(HeadingLine(level, WithoutClosing(TrimBlanks(line)), rest))
  {
    HashedLine(Hashes(level), line, rest);
    Regroup(Hashes(level), " ", line);
    SpaceGoes(line);
  }

  /** The reader goes on at the first line ending. */
  lemma HeadingReads(level: nat, line: string, more: string, rest: string)
    requires 1 <= level <= 6 && OneLine(line) && (more + rest == "" || EndsLine((more + rest)[0]))
    ensures ReadHeading(HeadingOf(level, line + more) + rest)
         == Some(HeadingLine(level, WithoutClosing(TrimBlanks(line)), more + rest))
  {
    LineReads(level, line, more + rest);
    CutHeading(level, line, more, rest);
  }

  lemma CutHeading(level: nat, line: string, more: string, rest: string)
    ensures HeadingOf(level, line + more) + rest == HeadingOf(level, line) + (more + rest)
  {
    Regroup(Hashes(level) + " ", line, more);
    Regroup(HeadingOf(level, line), more, rest);
  }

  /** The space behind the hashes is trimmed with the rest. */
  lemma SpaceGoes(s: string)
    ensures TrimBlanks(" " + s) == TrimBlanks(s)
  {
    assert (" " + s)[1..] == s;
  }

  lemma ClosingShortens(s: string)
    ensures |WithoutClosing(s)| <= |s| && (WithoutClosing(s) == s <==> !HasClosing(s))
  {
  }

  lemma OtherRest(text: string, m: nat, rest: string)
    requires m <= |text|
    ensures text[m..] + rest == rest <==> m == |text|
  {
    assert m < |text| ==> |text[m..] + rest| > |rest|;
  }

  /** A reader gets back exactly the level and the text of a heading, and goes on at the
      end of its line, if and only if the text fits one. */
  lemma HeadingComesBackExactly(level: nat, text: string, rest: string)
    requires 1 <= level <= 6 && text != "" && (rest == "" || EndsLine(rest[0]))
    ensures ReadHeading(HeadingOf(level, text) + rest) == Some(HeadingLine(level, text, rest)) <==> FitsHeading(text)
  {
    var m := LineLength(text);
    assert text == text[..m] + text[m..];
    HeadingReads(level, text[..m], text[m..], rest);
    OtherRest(text, m, rest);
    if m == |text| {
      assert text[..m] == text;
      TrimBlanksKeeps(text);
      ClosingShortens(TrimBlanks(text));
    } else {
      assert EndsLine(text[m]);
    }
  }

  lemma HashIsClosing(word: string, text: string)
    requires text == word + " #" && Tight(word)
    ensures TrimBlanks(text) == text && WithoutClosing(text) == word
  {
    var t := word + " ";
    TrimBlanksKeeps(text);
    assert text[..|text| - 1] == t && t[..|t| - 1] == word;
    assert TrimRight(t, IsHash) == t;
    assert TrimRight(word, IsBlank) == word;
  }

  lemma HashStaysOnLine(word: string, text: string)
    requires text == word + " #" && OneLine(word)
    ensures OneLine(text)
  {
    forall i | 0 <= i < |text| ensures !EndsLine(text[i]) {
      if i < |word| { assert text[i] == word[i]; }
    }
  }

  /** A heading such as "C #" loses its hash, and the space before it. */
  lemma ClosingHashIsLost(level: nat, word: string, text: string, rest: string)
    requires 1 <= level <= 6 && (rest == "" || EndsLine(rest[0]))
    requires text == word + " #" && OneLine(word) && Tight(word)
    ensures ReadHeading(HeadingOf(level, text) + rest) == Some(HeadingLine(level, word, rest))
  {
    HashIsClosing(word, text);
    HashStaysOnLine(word, text);
    LineReads(level, text, rest);
  }
}
