/** Lines as a markdown reader sees them (section 2.1 of CommonMark 0.31.2). */
module Lines {
  import opened Text

  /** A line ending is a newline, a return, or a return and a newline. */
  predicate EndsLine(c: char) {
    c == '\n' || c == '\r'
  }

  /** How long the line ending is that s starts with. */
  function Ending(s: string): (n: nat)
    requires s != "" && EndsLine(s[0])
    ensures 1 <= n <= |s|
  {
    if s[0] == '\r' && |s| > 1 && s[1] == '\n' then 2 else 1
  }

  function LineLength(s: string): (n: nat)
    ensures n <= |s| && (forall i | 0 <= i < n :: !EndsLine(s[i])) && (n < |s| ==> EndsLine(s[n]))
  {
    if s == "" || EndsLine(s[0]) then 0 else 1 + LineLength(s[1..])
  }

  /** The first line of s together with its ending. */
  function WholeLine(s: string): (n: nat)
    ensures LineLength(s) <= n <= |s| && (s != "" ==> 0 < n)
  {
    var n := LineLength(s);
    if n == |s| then n else n + Ending(s[n..])
  }

  lemma LineLengthIs(s: string, n: nat)
    requires n <= |s| && (forall i | 0 <= i < n :: !EndsLine(s[i])) && (n < |s| ==> EndsLine(s[n]))
    ensures LineLength(s) == n
  {
  }

  predicate OneLine(s: string) {
    forall i | 0 <= i < |s| :: !EndsLine(s[i])
  }

  /** Not empty, and without blanks at its ends. */
  predicate Tight(s: string) {
    s != "" && !IsBlank(s[0]) && !IsBlank(s[|s| - 1])
  }

  lemma LineOf(line: string, rest: string)
    requires OneLine(line) && (rest == "" || EndsLine(rest[0]))
    ensures LineLength(line + rest) == |line|
  {
    LineLengthIs(line + rest, |line|) by {
      assert forall i | 0 <= i < |line| :: (line + rest)[i] == line[i];
      assert rest != "" ==> (line + rest)[|line|] == rest[0];
    }
  }

  /** Nothing but spaces and tabs. */
  predicate Blank(s: string) {
    forall i | 0 <= i < |s| :: IsBlank(s[i])
  }
}
