/** Text with backslash escapes and character references, as a markdown reader
    decodes it (sections 2.4 and 2.5 of CommonMark 0.31.2). */
module References {
  import opened Text
  import opened Escapes

  /** The named references: the text each name stands for. */
  type Names = map<string, string>

  /** No reference is shorter than the text it stands for, and one that stands for
      an ampersand stands for nothing else. The references of HTML are like that. */
  ghost predicate Sensible(names: Names) {
    forall name | name in names ::
      1 <= |names[name]| <= |name| + 1 && ('&' in names[name] ==> names[name] == "&")
  }

  predicate IsDigit(c: char) {
    '0' <= c <= '9'
  }

  predicate IsHexDigit(c: char) {
    IsDigit(c) || 'a' <= c <= 'f' || 'A' <= c <= 'F'
  }

  predicate IsWordChar(c: char) {
    IsDigit(c) || 'a' <= c <= 'z' || 'A' <= c <= 'Z' || c == '#'
  }

  /** How many characters of a reference s starts with. */
  function Word(s: string): (n: nat)
    ensures n <= |s| && (forall i | 0 <= i < n :: IsWordChar(s[i])) && (n < |s| ==> !IsWordChar(s[n]))
  {
    if s == "" || !IsWordChar(s[0]) then 0 else 1 + Word(s[1..])
  }

  /** One to seven digits. */
  predicate IsDecimal(w: string) {
    2 <= |w| <= 8 && w[0] == '#' && forall i | 1 <= i < |w| :: IsDigit(w[i])
  }

  /** One to six hexadecimal digits. */
  predicate IsHexadecimal(w: string) {
    3 <= |w| <= 8 && w[0] == '#' && (w[1] == 'x' || w[1] == 'X') && forall i | 2 <= i < |w| :: IsHexDigit(w[i])
  }

  predicate IsReference(w: string, names: Names) {
    w in names || IsDecimal(w) || IsHexadecimal(w)
  }

  /** How long the reference is that s starts with, 0 when none does. */
  function ReferenceLength(s: string, names: Names): (n: nat)
    ensures n == 0 || (2 <= n <= |s| && s[0] == '&' && IsReference(s[1..n - 1], names))
  {
    if s == "" || s[0] != '&' then 0
    else
      var k := Word(s[1..]);
      if k + 1 < |s| && s[k + 1] == ';' && IsReference(s[1..k + 1], names) then k + 2 else 0
  }

  function DigitValue(c: char): (v: nat)
    requires IsHexDigit(c)
    ensures v < 16
  {
    if IsDigit(c) then (c - '0') as int else if c >= 'a' then (c - 'a') as int + 10 else (c - 'A') as int + 10
  }

  function Value(digits: string, base: nat): nat
    requires forall i | 0 <= i < |digits| :: IsHexDigit(digits[i])
  {
    if digits == "" then 0
    else Value(digits[..|digits| - 1], base) * base + DigitValue(digits[|digits| - 1])
  }

  /** A number reads as itself. */
  lemma {:induction false} ItoaValue(n: nat)
    ensures forall i | 0 <= i < |Itoa(n)| :: IsHexDigit(Itoa(n)[i])
    ensures Value(Itoa(n), 10) == n
  {
    var s := Itoa(n);
    var last := (n % 10) as char + '0';
    if n < 10 {
      assert s == [last] && s[..0] == "";
    } else {
      ItoaValue(n / 10);
      assert s == Itoa(n / 10) + [last] && s[..|s| - 1] == Itoa(n / 10);
    }
  }

  /** A number that is no character, and 0, stand for the replacement character. */
  function CodePoint(n: nat): char {
    if 0 < n < 0xD800 || 0xE000 <= n < 0x110000 then n as char else '\U{FFFD}'
  }

  function Meaning(w: string, names: Names): string
    requires IsReference(w, names)
  {
    if w in names then names[w]
    else if IsDecimal(w) then [CodePoint(Value(w[1..], 10))]
    else [CodePoint(Value(w[2..], 16))]
  }

  /** What a reader makes of s. */
  function Read(s: string, names: Names): string
    decreases |s|
  {
    if s == "" then ""
    else if EscapeStarts(s) then [s[1]] + Read(s[2..], names)
    else
      var n := ReferenceLength(s, names);
      if n > 0 then Meaning(s[1..n - 1], names) + Read(s[n..], names) else [s[0]] + Read(s[1..], names)
  }

  /** No escape and no reference starts anywhere in s. */
  predicate Untouched(s: string, names: Names) {
    s == "" || (!EscapeStarts(s) && ReferenceLength(s, names) == 0 && Untouched(s[1..], names))
  }

  /** No reference starts anywhere in s. */
  predicate NoReference(s: string, names: Names) {
    s == "" || (ReferenceLength(s, names) == 0 && NoReference(s[1..], names))
  }

  lemma MeaningIsShorter(w: string, names: Names)
    requires Sensible(names) && IsReference(w, names)
    ensures 1 <= |Meaning(w, names)| < |w| + 2
  {
  }

  /** Reading never lengthens a text, and leaves it as it is exactly when there is
      nothing to decode. */
  lemma {:induction false} ReadShrinks(s: string, names: Names)
    requires Sensible(names)
    ensures |Read(s, names)| <= |s| && (Read(s, names) == s <==> Untouched(s, names))
    decreases |s|
  {
    if s != "" {
      var n := ReferenceLength(s, names);
      if EscapeStarts(s) {
        ReadShrinks(s[2..], names);
      } else if n > 0 {
        ReadShrinks(s[n..], names);
        MeaningIsShorter(s[1..n - 1], names);
      } else {
        ReadShrinks(s[1..], names);
        assert s == [s[0]] + s[1..];
      }
    }
  }

  /** Where every ampersand is escaped there is no reference. */
  lemma {:induction false} InertHasNoReference(s: string, names: Names)
    requires Inert(s)
    ensures Read(s, names) == Unescape(s)
    decreases |s|
  {
    if s != "" {
      if s[0] == '\\' {
        InertHasNoReference(s[2..], names);
      } else {
        InertHasNoReference(s[1..], names);
      }
    }
  }

  /** Ordinary text reads back as itself, references decoded or not. */
  lemma OrdinaryTextReadsBack(s: string, names: Names)
    ensures Read(LineStartsEscaped(EscapeText(s)), names) == s
  {
    OrdinaryTextStaysOrdinary(s);
    InertHasNoReference(LineStartsEscaped(EscapeText(s)), names);
  }
}
