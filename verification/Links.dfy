/** Link destinations and titles, and readers of both after CommonMark 0.31.2. */
module Links {
  import opened Wrappers
  import opened Text
  import opened Lines
  import opened Escapes
  import opened References

  // --------------------------------------------------------------- the writer

  datatype Kind = Destination | Title

  predicate BreaksOrTabs(c: char) {
    c == '\n' || c == '\r' || c == '\t'
  }

  /** What destEscaper and titleEscaper put in place of a character. */
  function Piece(kind: Kind, c: char): (p: string)
    ensures p != ""
  {
    if c == '\\' || (kind == Destination && (c == '<' || c == '>')) || (kind == Title && c == '"') then ['\\', c]
    else if kind == Destination && BreaksOrTabs(c) then Percent(c)
    else [c]
  }

  function Percent(c: char): (p: string)
    ensures |p| == 3 && p[0] == '%'
  {
    if c == '\n' then "%0A" else if c == '\r' then "%0D" else "%09"
  }

  function Escaped(kind: Kind, s: string): string {
    if s == "" then "" else Piece(kind, s[0]) + Escaped(kind, s[1..])
  }

  predicate NeedsBrackets(dest: string) {
    exists c | c in dest :: c in " \t\n\r()<>"
  }

  /** mdDestination. */
  function MdDestination(dest: string): string {
    if NeedsBrackets(dest) then "<" + Escaped(Destination, dest) + ">" else dest
  }

  function MdTitle(title: string): string {
    "\"" + Escaped(Title, title) + "\""
  }

  // ------------------------------------------------------- decoding the pieces

  /** What a reader makes of an escaped text. */
  function Decoded(kind: Kind, s: string, names: Names): string {
    Read(Escaped(kind, s), names)
  }

  /** What a reader makes of an escaped character. */
  function Shown(kind: Kind, c: char): string {
    if kind == Destination && BreaksOrTabs(c) then Percent(c) else [c]
  }

  lemma {:induction false} EscapedConcat(kind: Kind, a: string, b: string)
    ensures Escaped(kind, a + b) == Escaped(kind, a) + Escaped(kind, b)
  {
    if a == "" {
      assert a + b == b;
    } else {
      assert (a + b)[1..] == a[1..] + b;
      EscapedConcat(kind, a[1..], b);
      Regroup(Piece(kind, a[0]), Escaped(kind, a[1..]), Escaped(kind, b));
    }
  }

  predicate IsWord(w: string) {
    forall i | 0 <= i < |w| :: IsWordChar(w[i])
  }

  /** The characters of a reference stand as they are. */
  lemma {:induction false} WordStays(kind: Kind, w: string)
    requires IsWord(w)
    ensures Escaped(kind, w) == w
  {
    if w != "" {
      WordStays(kind, w[1..]);
      assert [w[0]] + w[1..] == w;
    }
  }

  lemma {:induction false} WordIs(w: string, r: string)
    requires IsWord(w) && (r == "" || !IsWordChar(r[0]))
    ensures Word(w + r) == |w|
  {
    if w == "" {
      assert w + r == r;
    } else {
      assert (w + r)[1..] == w[1..] + r;
      WordIs(w[1..], r);
    }
  }

  lemma ReferenceForm(w: string, r: string, names: Names)
    requires IsWord(w) && (r == "" || !IsWordChar(r[0]))
    ensures ReferenceLength("&" + (w + r), names)
         == if r != "" && r[0] == ';' && IsReference(w, names) then |w| + 2 else 0
  {
    var s := "&" + (w + r);
    assert s[1..] == w + r && s[1..|w| + 1] == w;
    WordIs(w, r);
    assert r != "" ==> s[|w| + 1] == r[0];
  }

  lemma NextStays(kind: Kind, s: string)
    ensures Escaped(kind, s) == "" <==> s == ""
    ensures s != "" ==> (Escaped(kind, s)[0] == ';' <==> s[0] == ';')
    ensures s != "" && !IsWordChar(s[0]) ==> !IsWordChar(Escaped(kind, s)[0])
  {
    if s != "" { assert Escaped(kind, s)[0] == Piece(kind, s[0])[0]; }
  }

  lemma CutWord(s: string) returns (w: string, r: string)
    requires s != "" && s[0] == '&'
    ensures s == "&" + (w + r) && IsWord(w) && (r == "" || !IsWordChar(r[0]))
  {
    var k := Word(s[1..]);
    w, r := s[1..][..k], s[1..][k..];
    assert w + r == s[1..];
  }

  lemma AmpersandStays(kind: Kind, w: string, r: string)
    requires IsWord(w)
    ensures Escaped(kind, "&" + (w + r)) == "&" + (w + Escaped(kind, r))
  {
    assert ("&" + (w + r))[1..] == w + r;
    WordStays(kind, w);
    EscapedConcat(kind, w, r);
  }

  lemma ReferenceParts(w: string, r: string)
    requires r != "" && r[0] == ';'
    ensures var s := "&" + (w + r); s[|w| + 2..] == r[1..] && s[..|w| + 2] == "&" + (w + ";")
  {
  }

  /** The part of a text with a reference that comes after it. */
  lemma ReferenceIsCut(kind: Kind, w: string, r: string)
    requires IsWord(w) && r != "" && r[0] == ';'
    ensures var s := "&" + (w + r); Escaped(kind, s) == s[..|w| + 2] + Escaped(kind, s[|w| + 2..])
  {
    AmpersandStays(kind, w, r);
    ReferenceParts(w, r);
    assert Escaped(kind, r) == ";" + Escaped(kind, r[1..]);
    Regroup("&", w + ";", Escaped(kind, r[1..]));
    Regroup(w, ";", Escaped(kind, r[1..]));
  }

  /** So the escaped text starts with a reference exactly when the text does, and with
      the same one. */
  lemma ReferenceStays(kind: Kind, s: string, names: Names)
    ensures ReferenceLength(Escaped(kind, s), names) == ReferenceLength(s, names)
    ensures ReferenceLength(s, names) > 0 ==>
              var n := ReferenceLength(s, names); Escaped(kind, s) == s[..n] + Escaped(kind, s[n..])
  {
    if s != "" && s[0] == '&' {
      var w, r := CutWord(s);
      NextStays(kind, r);
      AmpersandStays(kind, w, r);
      ReferenceForm(w, r, names);
      ReferenceForm(w, Escaped(kind, r), names);
      if ReferenceLength(s, names) > 0 { ReferenceIsCut(kind, w, r); }
    } else if s != "" {
      assert Escaped(kind, s)[0] == Piece(kind, s[0])[0];
    }
  }

  lemma PlainStep(c: char, tail: string, names: Names)
    requires c != '\\' && ReferenceLength([c] + tail, names) == 0
    ensures Read([c] + tail, names) == [c] + Read(tail, names)
  {
    assert ([c] + tail)[1..] == tail;
  }

  lemma EscapedStep(c: char, tail: string, names: Names)
    requires AsciiPunctuation(c)
    ensures Read(['\\', c] + tail, names) == [c] + Read(tail, names)
  {
    assert (['\\', c] + tail)[2..] == tail;
  }

  lemma ThreePlainSteps(a: char, b: char, c: char, tail: string, names: Names)
    requires a != '\\' && b != '\\' && c != '\\' && a != '&' && b != '&' && c != '&'
    ensures Read([a, b, c] + tail, names) == [a, b, c] + Read(tail, names)
  {
    PlainStep(c, tail, names);
    PlainStep(b, [c] + tail, names);
    PlainStep(a, [b] + ([c] + tail), names);
    assert [a, b, c] + tail == [a] + ([b] + ([c] + tail));
    assert [a, b, c] + Read(tail, names) == [a] + ([b] + ([c] + Read(tail, names)));
  }

  lemma PercentStep(c: char, tail: string, names: Names)
    ensures Read(Percent(c) + tail, names) == Percent(c) + Read(tail, names)
  {
    var p := Percent(c);
    ThreePlainSteps(p[0], p[1], p[2], tail, names);
    assert p == [p[0], p[1], p[2]];
  }

  lemma FrontAndBack(p: string, tail: string)
    requires |p| >= 2
    ensures var s := p + tail; s[0] == p[0] && s[1..|p| - 1] == p[1..|p| - 1] && s[|p|..] == tail
  {
  }

  lemma ReferenceStep(p: string, tail: string, names: Names)
    requires |p| >= 2 && p[0] == '&' && ReferenceLength(p + tail, names) == |p|
    ensures IsReference(p[1..|p| - 1], names)
    ensures Read(p + tail, names) == Meaning(p[1..|p| - 1], names) + Read(tail, names)
  {
    FrontAndBack(p, tail);
    assert !EscapeStarts(p + tail);
  }

  lemma DecodedFrom(kind: Kind, s: string, p: string, tail: string, names: Names)
    requires |p| >= 2 && p[0] == '&' && Escaped(kind, s) == p + Escaped(kind, tail)
    requires ReferenceLength(Escaped(kind, s), names) == |p|
    ensures IsReference(p[1..|p| - 1], names)
    ensures Decoded(kind, s, names) == Meaning(p[1..|p| - 1], names) + Decoded(kind, tail, names)
  {
    ReferenceStep(p, Escaped(kind, tail), names);
  }

  lemma DecodedReference(kind: Kind, s: string, names: Names)
    requires ReferenceLength(s, names) > 0
    ensures var n := ReferenceLength(s, names);
            Decoded(kind, s, names) == Meaning(s[1..n - 1], names) + Decoded(kind, s[n..], names)
  {
    var n := ReferenceLength(s, names);
    var p := s[..n];
    assert p[0] == s[0] && p[1..n - 1] == s[1..n - 1];
    ReferenceStays(kind, s, names);
    DecodedFrom(kind, s, p, s[n..], names);
  }

  lemma DecodedCharacter(kind: Kind, s: string, names: Names)
    requires s != "" && ReferenceLength(s, names) == 0
    ensures Decoded(kind, s, names) == Shown(kind, s[0]) + Decoded(kind, s[1..], names)
  {
    var c, tail := s[0], Escaped(kind, s[1..]);
    if Piece(kind, c) == ['\\', c] {
      EscapedStep(c, tail, names);
    } else if kind == Destination && BreaksOrTabs(c) {
      PercentStep(c, tail, names);
    } else {
      ReferenceStays(kind, s, names);
      PlainStep(c, tail, names);
    }
  }

  // -------------------------------------------------- what decodes to itself

  predicate NoBreaks(s: string) {
    forall i | 0 <= i < |s| :: !BreaksOrTabs(s[i])
  }

  function Ampersands(s: string): nat {
    if s == "" then 0 else (if s[0] == '&' then 1 else 0) + Ampersands(s[1..])
  }

  lemma {:induction false} AmpersandsConcat(a: string, b: string)
    ensures Ampersands(a + b) == Ampersands(a) + Ampersands(b)
  {
    if a == "" {
      assert a + b == b;
    } else {
      assert (a + b)[1..] == a[1..] + b;
      AmpersandsConcat(a[1..], b);
    }
  }

  lemma {:induction false} NoAmpersands(s: string)
    requires '&' !in s
    ensures Ampersands(s) == 0
  {
    if s != "" { NoAmpersands(s[1..]); }
  }

  lemma ReferenceHasOne(s: string, names: Names)
    requires ReferenceLength(s, names) > 0
    ensures Ampersands(s) == 1 + Ampersands(s[ReferenceLength(s, names)..])
  {
    var n := ReferenceLength(s, names);
    assert s[1..] == s[1..n] + s[n..];
    assert forall i | 1 <= i < n - 1 :: s[i] == s[1..][i - 1];
    assert s[n - 1] == ';';
    NoAmpersands(s[1..n]);
    AmpersandsConcat(s[1..n], s[n..]);
  }

  lemma MeaningTally(w: string, names: Names)
    requires Sensible(names) && IsReference(w, names)
    ensures var m := Meaning(w, names); Ampersands(m) == 0 || m == "&"
  {
    var m := Meaning(w, names);
    if '&' !in m { NoAmpersands(m); }
  }

  /** Decoding adds no ampersand; where it drops none, each reference stood for one,
      so no line ending or tab came out of it. */
  lemma {:induction false} DestinationTally(s: string, names: Names)
    requires Sensible(names)
    ensures var d := Decoded(Destination, s, names);
            Ampersands(d) <= Ampersands(s) && (Ampersands(d) == Ampersands(s) ==> NoBreaks(d))
    decreases |s|
  {
    if s != "" {
      var n := ReferenceLength(s, names);
      if n > 0 {
        var m, tail := Meaning(s[1..n - 1], names), Decoded(Destination, s[n..], names);
        DestinationTally(s[n..], names);
        DecodedReference(Destination, s, names);
        ReferenceHasOne(s, names);
        MeaningTally(s[1..n - 1], names);
        AmpersandsConcat(m, tail);
        assert Ampersands("&") == 1 + Ampersands("");
      } else {
        DestinationTally(s[1..], names);
        DecodedCharacter(Destination, s, names);
        ShownTally(s[0], Decoded(Destination, s[1..], names));
      }
    }
  }

  lemma ShownTally(c: char, tail: string)
    ensures Ampersands(Shown(Destination, c) + tail) == (if c == '&' then 1 else 0) + Ampersands(tail)
    ensures NoBreaks(tail) ==> NoBreaks(Shown(Destination, c) + tail)
  {
    var shown := Shown(Destination, c);
    AmpersandsConcat(shown, tail);
    if BreaksOrTabs(c) {
      NoAmpersands(shown);
    } else {
      assert shown[1..] == "";
    }
  }

  /** Where no character becomes a percent escape, decoding shortens the text by every
      reference and leaves the rest. */
  lemma {:induction false} DecodingShrinks(kind: Kind, s: string, names: Names)
    requires Sensible(names) && (kind == Destination ==> NoBreaks(s))
    ensures var d := Decoded(kind, s, names); |d| <= |s| && (d == s <==> NoReference(s, names))
    decreases |s|
  {
    if s != "" {
      var n := ReferenceLength(s, names);
      if n > 0 {
        DecodingShrinks(kind, s[n..], names);
        DecodedReference(kind, s, names);
        MeaningIsShorter(s[1..n - 1], names);
      } else {
        DecodingShrinks(kind, s[1..], names);
        DecodedCharacter(kind, s, names);
        assert s == [s[0]] + s[1..];
      }
    }
  }

  lemma DestinationDecodesExactly(dest: string, names: Names)
    requires Sensible(names)
    ensures Decoded(Destination, dest, names) == dest <==> NoBreaks(dest) && NoReference(dest, names)
  {
    DestinationTally(dest, names);
    if NoBreaks(dest) { DecodingShrinks(Destination, dest, names); }
  }

  // --------------------------------------------- destinations (section 6.3)

  /** What was read, and what is left to read. */
  type Reading = (string, string)

  function Prepend(p: string, r: Option<Reading>): Option<Reading> {
    match r
    case None => None
    case Some((text, rest)) => Some((p + text, rest))
  }

  /** The characters up to the closing bracket: no line ending and no bare opening one. */
  function RawAngle(s: string): Option<Reading>
    decreases |s|
  {
    if s == "" || s[0] == '<' || EndsLine(s[0]) then None
    else if s[0] == '>' then Some(("", s[1..]))
    else if EscapeStarts(s) then Prepend(s[..2], RawAngle(s[2..]))
    else Prepend([s[0]], RawAngle(s[1..]))
  }

  predicate IsControl(c: char) {
    c < ' ' || c == '\U{7F}'
  }

  /** The characters up to a space, a control character or a parenthesis that closes
      none of its own. */
  function RawPlain(s: string, depth: nat): (r: Reading)
    ensures r.0 + r.1 == s
    decreases |s|
  {
    if s == "" || s[0] == ' ' || IsControl(s[0]) || (s[0] == ')' && depth == 0) then ("", s)
    else if EscapeStarts(s) then
      var r := RawPlain(s[2..], depth);
      (s[..2] + r.0, r.1)
    else
      var r := RawPlain(s[1..], if s[0] == '(' then depth + 1 else if s[0] == ')' then depth - 1 else depth);
      ([s[0]] + r.0, r.1)
  }

  function SkipBlanks(s: string): (r: string)
    ensures |r| <= |s| && (r != "" ==> !IsBlank(r[0]))
  {
    s[Leading(s, IsBlank)..]
  }

  /** Spaces, tabs and up to one line ending skipped. */
  function AfterSpace(s: string): (r: string)
    ensures |r| <= |s|
  {
    var t := SkipBlanks(s);
    if t != "" && EndsLine(t[0]) then SkipBlanks(t[Ending(t)..]) else t
  }

  lemma NoSpace(s: string)
    requires s != "" && !IsBlank(s[0]) && !EndsLine(s[0])
    ensures AfterSpace(s) == s
  {
  }

  lemma OneSpace(s: string)
    requires s != "" && !IsBlank(s[0]) && !EndsLine(s[0])
    ensures AfterSpace(" " + s) == s
  {
    assert (" " + s)[1..] == s && Leading(s, IsBlank) == 0;
  }

  /** The destination that comes next, its escapes and references decoded. A bare one
      is not empty; there is none at all where the parenthesis closes at once. */
  function ReadDestination(s: string, names: Names): Option<Reading> {
    var start := AfterSpace(s);
    if start != "" && start[0] == '<' then
      match RawAngle(start[1..])
      case None => None
      case Some((raw, rest)) => Some((Read(raw, names), rest))
    else
      var (raw, rest) := RawPlain(start, 0);
      if raw != "" then Some((Read(raw, names), rest))
      else if start != "" && start[0] == ')' then Some(("", start))
      else None
  }

  lemma RawAngleStep(c: char, tail: string)
    requires c != '\\' && c != '<' && c != '>' && !EndsLine(c)
    ensures RawAngle([c] + tail) == Prepend([c], RawAngle(tail))
  {
    assert ([c] + tail)[1..] == tail;
  }

  lemma PieceEndsNothing(c: char, tail: string, text: string, rest: string)
    requires RawAngle(tail) == Some((text, rest))
    ensures RawAngle(Piece(Destination, c) + tail) == Some((Piece(Destination, c) + text, rest))
  {
    var p := Piece(Destination, c);
    if p == ['\\', c] {
      assert (p + tail)[2..] == tail && (p + tail)[..2] == p;
    } else if p == [c] {
      RawAngleStep(c, tail);
    } else {
      RawAngleStep(p[2], tail);
      RawAngleStep(p[1], [p[2]] + tail);
      RawAngleStep(p[0], [p[1]] + ([p[2]] + tail));
      assert p + tail == [p[0]] + ([p[1]] + ([p[2]] + tail));
      assert p + text == [p[0]] + ([p[1]] + ([p[2]] + text));
    }
  }

  /** A destination in brackets ends at its closing bracket. */
  lemma {:induction false} BracketsEnd(dest: string, rest: string)
    ensures RawAngle(Escaped(Destination, dest) + (">" + rest)) == Some((Escaped(Destination, dest), rest))
  {
    if dest == "" {
      assert "" + (">" + rest) == ">" + rest && (">" + rest)[1..] == rest;
    } else {
      var tail := Escaped(Destination, dest[1..]);
      BracketsEnd(dest[1..], rest);
      PieceEndsNothing(dest[0], tail + (">" + rest), tail, rest);
      Regroup(Piece(Destination, dest[0]), tail, ">" + rest);
    }
  }

  lemma BracketsRead(dest: string, rest: string, names: Names)
    requires NeedsBrackets(dest)
    ensures ReadDestination(MdDestination(dest) + rest, names) == Some((Decoded(Destination, dest, names), rest))
  {
    var e, s := Escaped(Destination, dest), MdDestination(dest) + rest;
    assert s == "<" + (e + (">" + rest)) by {
      Regroup("<", e, ">");
      Regroup(e, ">", rest);
      Regroup("<", e + ">", rest);
    }
    assert s[1..] == e + (">" + rest);
    NoSpace(s);
    BracketsEnd(dest, rest);
  }

  /** A destination a reader can take as it stands: no control character, nothing to
      decode, and no backslash at its end that escapes what comes next. */
  predicate Legible(dest: string, next: char, names: Names) {
    && (forall i | 0 <= i < |dest| :: !IsControl(dest[i]))
    && Untouched(dest, names)
    && !(dest != "" && dest[|dest| - 1] == '\\' && AsciiPunctuation(next))
  }

  /** It ends in a backslash that is not escaped itself. */
  predicate Dangling(dest: string) {
    dest != "" && if EscapeStarts(dest) then Dangling(dest[2..]) else dest == "\\" || Dangling(dest[1..])
  }

  /** None of the characters that put a destination into brackets. */
  predicate IsBare(dest: string) {
    forall i | 0 <= i < |dest| ::
      dest[i] != ' ' && dest[i] != '(' && dest[i] != ')' && dest[i] != '<' && !BreaksOrTabs(dest[i])
  }

  lemma BareIsBare(dest: string)
    requires !NeedsBrackets(dest)
    ensures IsBare(dest)
  {
    assert forall i | 0 <= i < |dest| :: dest[i] in dest;
  }

  predicate HoldsControl(dest: string) {
    exists i | 0 <= i < |dest| :: IsControl(dest[i])
  }

  /** A bare destination ends at its end, but for a dangling backslash, which takes a
      parenthesis along, and for a control character, at which it ends too early. */
  lemma {:induction false} BareEnds(dest: string, rest: string)
    requires IsBare(dest) && rest != "" && (rest[0] == ')' || rest[0] == ' ')
    ensures var r := RawPlain(dest + rest, 0);
            if HoldsControl(dest) then |r.0| < |dest| && r.1 != "" && IsControl(r.1[0]) && !BreaksOrTabs(r.1[0])
            else if Dangling(dest) && rest[0] == ')' then ')' in r.0
            else r == (dest, rest)
    decreases |dest|
  {
    var s := dest + rest;
    if dest == "" {
      assert s == rest;
    } else {
      assert s[0] == dest[0] && s[1] == if |dest| > 1 then dest[1] else rest[0];
      if IsControl(dest[0]) {
        assert RawPlain(s, 0) == ("", s);
      } else if EscapeStarts(s) && |dest| > 1 {
        var tail := dest[2..];
        assert s[2..] == tail + rest && s[..2] == dest[..2] && dest == dest[..2] + tail;
        ControlBehind(dest, 2);
        BareEnds(tail, rest);
      } else if EscapeStarts(s) {
        assert dest == "\\" && s[..2] == dest + [rest[0]];
        assert ')' in s[..2];
      } else {
        var tail := dest[1..];
        assert s[1..] == tail + rest && dest == [dest[0]] + tail;
        ControlBehind(dest, 1);
        BareEnds(tail, rest);
      }
    }
  }

  lemma ControlBehind(dest: string, n: nat)
    requires n <= |dest| && forall i | 0 <= i < n :: !IsControl(dest[i])
    ensures HoldsControl(dest) <==> HoldsControl(dest[n..])
  {
    if HoldsControl(dest) {
      var i :| 0 <= i < |dest| && IsControl(dest[i]);
      assert dest[n..][i - n] == dest[i];
    }
  }

  /** Decoding drops no parenthesis. */
  lemma {:induction false} ReadKeepsParens(s: string, names: Names)
    requires ')' in s
    ensures ')' in Read(s, names)
    decreases |s|
  {
    var n := ReferenceLength(s, names);
    if EscapeStarts(s) {
      if s[1] != ')' {
        assert s == s[..2] + s[2..];
        ReadKeepsParens(s[2..], names);
      }
    } else if n > 0 {
      assert forall i | 1 <= i < n - 1 :: s[i] == s[1..][i - 1];
      assert s[n - 1] == ';' && s == s[..n] + s[n..];
      ReadKeepsParens(s[n..], names);
    } else if s[0] != ')' {
      assert s == [s[0]] + s[1..];
      ReadKeepsParens(s[1..], names);
    }
  }

  lemma ReadOfSome(s: string, names: Names)
    requires Sensible(names) && s != ""
    ensures Read(s, names) != ""
  {
    var n := ReferenceLength(s, names);
    if !EscapeStarts(s) && n > 0 { MeaningIsShorter(s[1..n - 1], names); }
  }

  /** In an undecoded text the last backslash is the dangling one. */
  lemma {:induction false} UntouchedDangles(dest: string, names: Names)
    requires Untouched(dest, names)
    ensures Dangling(dest) <==> dest != "" && dest[|dest| - 1] == '\\'
  {
    if dest != "" { UntouchedDangles(dest[1..], names); }
  }

  predicate Fits(dest: string, next: char, names: Names) {
    && (dest == "" ==> next == ')')
    && if NeedsBrackets(dest) then NoBreaks(dest) && NoReference(dest, names) else Legible(dest, next, names)
  }

  /** What the reader makes of a bare destination that does not fit: another one, or one
      that ends where neither a parenthesis nor a title can follow. */
  lemma UnfitIsMisread(dest: string, rest: string, names: Names)
    requires Sensible(names) && rest != "" && (rest[0] == ')' || (|rest| > 1 && rest[0] == ' ' && rest[1] == '"'))
    requires !Fits(dest, rest[0], names)
    ensures var r := ReadDestination(MdDestination(dest) + rest, names);
            r.Some? && r.value.0 == dest ==>
              r.value.1 != "" && IsControl(r.value.1[0]) && !BreaksOrTabs(r.value.1[0])
  {
    if NeedsBrackets(dest) {
      assert dest != "";
      BracketsRead(dest, rest, names);
      DestinationDecodesExactly(dest, names);
    } else if dest == "" {
      assert "" + rest == rest && rest == " " + rest[1..];
      OneSpace(rest[1..]);
      var (raw, left) := RawPlain(rest[1..], 0);
      assert raw != "";
      ReadOfSome(raw, names);
    } else {
      UnfitBareIsMisread(dest, rest, names);
    }
  }

  lemma UnfitBareIsMisread(dest: string, rest: string, names: Names)
    requires Sensible(names) && rest != "" && (rest[0] == ')' || rest[0] == ' ')
    requires dest != "" && !NeedsBrackets(dest) && !Legible(dest, rest[0], names)
    ensures var r := ReadDestination(MdDestination(dest) + rest, names);
            r.Some? && r.value.0 == dest ==>
              r.value.1 != "" && IsControl(r.value.1[0]) && !BreaksOrTabs(r.value.1[0])
  {
    var s := dest + rest;
    BareIsBare(dest);
    assert s[0] == dest[0];
    NoSpace(s);
    BareEnds(dest, rest);
    var (raw, left) := RawPlain(s, 0);
    if HoldsControl(dest) {
    } else if Dangling(dest) && rest[0] == ')' {
      ReadKeepsParens(raw, names);
    } else {
      ReadShrinks(dest, names);
      if Untouched(dest, names) { UntouchedDangles(dest, names); }
    }
  }

  lemma FittingIsRead(dest: string, rest: string, names: Names)
    requires Sensible(names) && rest != "" && (rest[0] == ')' || rest[0] == ' ') && Fits(dest, rest[0], names)
    ensures ReadDestination(MdDestination(dest) + rest, names) == Some((dest, rest))
  {
    if NeedsBrackets(dest) {
      BracketsRead(dest, rest, names);
      DestinationDecodesExactly(dest, names);
    } else if dest == "" {
      assert "" + rest == rest;
      NoSpace(rest);
      assert RawPlain(rest, 0) == ("", rest);
    } else {
      var s := dest + rest;
      BareIsBare(dest);
      assert s[0] == dest[0];
      NoSpace(s);
      assert !HoldsControl(dest);
      BareEnds(dest, rest);
      UntouchedDangles(dest, names);
      ReadShrinks(dest, names);
      assert RawPlain(s, 0) == (dest, rest);
      assert s[0] != '<';
    }
  }

  lemma {:induction false} AngleShortens(s: string)
    ensures var r := RawAngle(s); r.Some? ==> |r.value.1| < |s|
    decreases |s|
  {
    if s != "" && s[0] != '<' && !EndsLine(s[0]) && s[0] != '>' {
      AngleShortens(if EscapeStarts(s) then s[2..] else s[1..]);
    }
  }

  lemma DestinationShortens(s: string, names: Names)
    ensures var r := ReadDestination(s, names); r.Some? ==> |r.value.1| <= |AfterSpace(s)|
  {
    var start := AfterSpace(s);
    if start != "" && start[0] == '<' { AngleShortens(start[1..]); }
  }

  lemma SpaceIsSkipped(s: string)
    requires s != "" && s[0] == ' '
    ensures |AfterSpace(s)| < |s|
  {
    assert Leading(s, IsBlank) > 0;
  }

  lemma SpaceIsNoDestination(rest: string, names: Names)
    requires rest != "" && rest[0] == ' '
    ensures ReadDestination(rest, names) != Some(("", rest))
  {
    DestinationShortens(rest, names);
    SpaceIsSkipped(rest);
  }

  /** A reader gets back exactly the destination and goes on where it ends if and only
      if: an empty one stands right before the parenthesis; in brackets, it has no line
      ending, no tab and no reference; bare, it is legible as it stands. */
  lemma DestinationComesBackExactly(dest: string, rest: string, names: Names)
    requires Sensible(names) && rest != "" && (rest[0] == ')' || rest[0] == ' ')
    ensures ReadDestination(MdDestination(dest) + rest, names) == Some((dest, rest)) <==> Fits(dest, rest[0], names)
  {
    if Fits(dest, rest[0], names) {
      FittingIsRead(dest, rest, names);
    } else if dest == "" {
      assert !NeedsBrackets("") && "" + rest == rest;
      SpaceIsNoDestination(rest, names);
    } else if NeedsBrackets(dest) {
      BracketsRead(dest, rest, names);
      DestinationDecodesExactly(dest, names);
    } else {
      UnfitBareIsMisread(dest, rest, names);
    }
  }

  lemma AmpIsReference(names: Names)
    requires "amp" in names
    ensures ReferenceLength("&amp;", names) == 5
  {
    var s := "&amp;";
    assert s[1..] == "amp;" && Word("amp;") == 3 by {
      assert "amp;"[1..] == "mp;" && "mp;"[1..] == "p;" && "p;"[1..] == ";";
    }
    assert s[1..4] == "amp";
  }

  /** A destination or title that spells a reference is read as what it stands for. */
  lemma SpelledReferenceIsDecoded(kind: Kind, names: Names)
    requires "amp" in names && names["amp"] == "&"
    ensures Decoded(kind, "&amp;", names) == "&"
  {
    var s := "&amp;";
    AmpIsReference(names);
    DecodedReference(kind, s, names);
    assert s[1..4] == "amp" && s[5..] == "";
  }

  // ---------------------------------------------------- titles (section 6.3)

  /** A line with nothing but blanks starts s and ends in it. */
  predicate BlankStarts(s: string) {
    s != "" && (EndsLine(s[0]) || (IsBlank(s[0]) && BlankStarts(s[1..])))
  }

  predicate HasBlankLine(s: string)
    decreases |s|
  {
    s != "" &&
    if EndsLine(s[0]) then BlankStarts(s[Ending(s)..]) || HasBlankLine(s[Ending(s)..]) else HasBlankLine(s[1..])
  }

  /** The characters up to the closing quote or parenthesis. */
  function RawTitle(s: string, close: char): Option<Reading>
    decreases |s|
  {
    if s == "" || (close == ')' && s[0] == '(') then None
    else if s[0] == close then Some(("", s[1..]))
    else if EscapeStarts(s) then Prepend(s[..2], RawTitle(s[2..], close))
    else Prepend([s[0]], RawTitle(s[1..], close))
  }

  /** The title that starts s, in quotes or parentheses: it has no blank line. */
  function ReadTitle(s: string, names: Names): Option<Reading> {
    if s == "" || !(s[0] == '"' || s[0] == '\'' || s[0] == '(') then None
    else
      match RawTitle(s[1..], if s[0] == '(' then ')' else s[0])
      case None => None
      case Some((raw, rest)) => if HasBlankLine(raw) then None else Some((Read(raw, names), rest))
  }

  lemma {:induction false} QuotesEnd(title: string, rest: string)
    ensures RawTitle(Escaped(Title, title) + ("\"" + rest), '"') == Some((Escaped(Title, title), rest))
  {
    if title == "" {
      assert "" + ("\"" + rest) == "\"" + rest && ("\"" + rest)[1..] == rest;
    } else {
      var p, tail := Piece(Title, title[0]), Escaped(Title, title[1..]);
      var s := tail + ("\"" + rest);
      QuotesEnd(title[1..], rest);
      assert RawTitle(p + s, '"') == Prepend(p, RawTitle(s, '"')) by {
        assert (p + s)[|p|..] == s && (p + s)[..|p|] == p;
      }
      Regroup(p, tail, "\"" + rest);
    }
  }

  lemma {:induction false} BlankStartStays(s: string)
    ensures BlankStarts(Escaped(Title, s)) <==> BlankStarts(s)
  {
    if s != "" {
      var e := Escaped(Title, s);
      BlankStartStays(s[1..]);
      assert e[0] == Piece(Title, s[0])[0];
      assert IsBlank(s[0]) ==> e[1..] == Escaped(Title, s[1..]);
    }
  }

  lemma EndingStays(s: string)
    requires s != "" && EndsLine(s[0])
    ensures var e := Escaped(Title, s);
            e != "" && EndsLine(e[0]) && Ending(e) == Ending(s) && e[Ending(s)..] == Escaped(Title, s[Ending(s)..])
  {
    var e, tail := Escaped(Title, s), Escaped(Title, s[1..]);
    assert e == [s[0]] + tail && e[1..] == tail;
    if |s| > 1 {
      assert s[1..][1..] == s[2..];
      assert tail == Piece(Title, s[1]) + Escaped(Title, s[2..]) && e[1] == Piece(Title, s[1])[0];
    }
  }

  lemma {:induction false} BlankLinesStay(s: string)
    ensures HasBlankLine(Escaped(Title, s)) <==> HasBlankLine(s)
    decreases |s|
  {
    if s != "" {
      var e, p := Escaped(Title, s), Piece(Title, s[0]);
      if EndsLine(s[0]) {
        EndingStays(s);
        BlankStartStays(s[Ending(s)..]);
        BlankLinesStay(s[Ending(s)..]);
      } else {
        BlankLinesStay(s[1..]);
        assert e[|p|..] == Escaped(Title, s[1..]);
        assert |p| == 2 ==> e[1..][1..] == e[2..];
      }
    }
  }

  lemma TitleReads(title: string, rest: string, names: Names)
    ensures ReadTitle(MdTitle(title) + rest, names)
         == if HasBlankLine(title) then None else Some((Decoded(Title, title, names), rest))
  {
    var e, s := Escaped(Title, title), MdTitle(title) + rest;
    assert s[1..] == e + ("\"" + rest);
    QuotesEnd(title, rest);
    BlankLinesStay(title);
  }

  predicate TitleFits(title: string, names: Names) {
    !HasBlankLine(title) && NoReference(title, names)
  }

  /** A reader gets back exactly the title, and goes on after its closing quote, if and
      only if the title has no blank line and spells no reference. */
  lemma TitleComesBackExactly(title: string, rest: string, names: Names)
    requires Sensible(names)
    ensures ReadTitle(MdTitle(title) + rest, names) == Some((title, rest)) <==> TitleFits(title, names)
  {
    TitleReads(title, rest, names);
    DecodingShrinks(Title, title, names);
  }

  /** A title of two lines with a blank one between them is no title. */
  lemma BlankLineEndsTitle(first: string, second: string, rest: string, names: Names)
    ensures ReadTitle(MdTitle(first + ("\n\n" + second)) + rest, names) == None
  {
    BlankLineBehind(first, second);
    TitleReads(first + ("\n\n" + second), rest, names);
  }

  lemma {:induction false} BlankLineBehind(first: string, second: string)
    ensures HasBlankLine(first + ("\n\n" + second))
    decreases |first|
  {
    var s := first + ("\n\n" + second);
    if first == "" {
      assert s[1..][0] == '\n' && Ending(s) == 1;
    } else if EndsLine(first[0]) && Ending(s) == 2 && |first| == 1 {
      assert s[2..][0] == '\n';
    } else {
      var n := if EndsLine(first[0]) then Ending(s) else 1;
      assert s[n..] == first[n..] + ("\n\n" + second);
      BlankLineBehind(first[n..], second);
    }
  }

  // ------------------------------------------- targets of links and images (6.3)

  /** A title, where there is one, is set off by a space. */
  function TitlePart(title: string): string {
    if title != "" then " " + MdTitle(title) else ""
  }

  /** What mdText and mdImage write between the parentheses. */
  function MdTarget(dest: string, title: string): string {
    MdDestination(dest) + TitlePart(title)
  }

  datatype Target = Target(dest: string, title: string, rest: string)

  /** A destination, perhaps a title behind a space, and the closing parenthesis. */
  function ReadTarget(s: string, names: Names): Option<Target> {
    match ReadDestination(s, names)
    case None => None
    case Some((dest, rest)) =>
      var next := AfterSpace(rest);
      if next != "" && next[0] == ')' then Some(Target(dest, "", next[1..]))
      else if next == rest then None
      else
        match ReadTitle(next, names)
        case None => None
        case Some((title, after)) =>
          var close := AfterSpace(after);
          if close != "" && close[0] == ')' then Some(Target(dest, title, close[1..])) else None
  }

  /** A target a reader can take: an empty destination only without a title. */
  predicate TargetFits(dest: string, title: string, names: Names) {
    Fits(dest, if title == "" then ')' else ' ', names) && (title != "" ==> TitleFits(title, names))
  }

  /** What follows the destination. */
  function Behind(title: string, rest: string): (s: string)
    ensures s != ""
  {
    if title == "" then ")" + rest else " " + (MdTitle(title) + (")" + rest))
  }

  lemma TargetParts(dest: string, title: string, rest: string)
    ensures MdTarget(dest, title) + (")" + rest) == MdDestination(dest) + Behind(title, rest)
  {
    if title == "" {
      assert MdTarget(dest, title) == MdDestination(dest);
    } else {
      Regroup(MdDestination(dest), " " + MdTitle(title), ")" + rest);
      Regroup(" ", MdTitle(title), ")" + rest);
    }
  }

  lemma TitleBehind(dest: string, title: string, rest: string, names: Names)
    requires Sensible(names)
    requires ReadDestination(MdDestination(dest) + Behind(title, rest), names) == Some((dest, Behind(title, rest)))
    ensures ReadTarget(MdDestination(dest) + Behind(title, rest), names) == Some(Target(dest, title, rest))
       <==> (title != "" ==> TitleFits(title, names))
  {
    var close := ")" + rest;
    assert close[1..] == rest;
    NoSpace(close);
    if title != "" {
      var s := MdTitle(title) + close;
      OneSpace(s);
      TitleReads(title, close, names);
      TitleComesBackExactly(title, close, names);
    }
  }

  lemma MisreadTarget(s: string, dest: string, title: string, rest: string, names: Names)
    requires var r := ReadDestination(s, names);
             r.Some? && r.value.0 == dest ==>
               r.value.1 != "" && IsControl(r.value.1[0]) && !BreaksOrTabs(r.value.1[0])
    ensures ReadTarget(s, names) != Some(Target(dest, title, rest))
  {
    var r := ReadDestination(s, names);
    if r.Some? && r.value.0 == dest { NoSpace(r.value.1); }
  }

  /** A reader gets back exactly the destination and the title, and goes on behind the
      closing parenthesis, if and only if: an empty destination has no title; in
      brackets, the destination has no line ending, no tab and no reference; bare, it is
      legible as it stands; and the title has no blank line and no reference. */
  lemma TargetComesBackExactly(dest: string, title: string, rest: string, names: Names)
    requires Sensible(names)
    ensures ReadTarget(MdTarget(dest, title) + (")" + rest), names) == Some(Target(dest, title, rest))
       <==> TargetFits(dest, title, names)
  {
    var behind := Behind(title, rest);
    var s := MdDestination(dest) + behind;
    TargetParts(dest, title, rest);
    assert title != "" ==> behind[1] == (MdTitle(title) + (")" + rest))[0] == '"';
    if Fits(dest, behind[0], names) {
      FittingIsRead(dest, behind, names);
      TitleBehind(dest, title, rest, names);
    } else {
      UnfitIsMisread(dest, behind, names);
      MisreadTarget(s, dest, title, rest, names);
    }
  }

  /** No title is read as a longer one. */
  lemma LongerTitleIsNotRead(dest: string, title: string, longer: string, rest: string, names: Names)
    requires Sensible(names) && title != "" && |title| < |longer|
    ensures ReadTarget(MdTarget(dest, title) + (")" + rest), names) != Some(Target(dest, longer, rest))
  {
    var behind := Behind(title, rest);
    TargetParts(dest, title, rest);
    assert behind[1] == (MdTitle(title) + (")" + rest))[0] == '"';
    if Fits(dest, behind[0], names) {
      FittingIsRead(dest, behind, names);
      OneSpace(MdTitle(title) + (")" + rest));
      TitleReads(title, ")" + rest, names);
      DecodingShrinks(Title, title, names);
    } else {
      UnfitIsMisread(dest, behind, names);
      MisreadTarget(MdDestination(dest) + behind, dest, longer, rest, names);
    }
  }

  lemma QuotedIsBare(word: string)
    requires IsBare(word) && !HoldsControl(word)
    ensures var quoted := "\"" + word + "\""; IsBare(quoted) && !HoldsControl(quoted)
  {
    var quoted := "\"" + word + "\"";
    assert forall i | 0 <= i < |quoted| :: quoted[i] == '"' || quoted[i] == word[i - 1];
  }

  /** A bare text where no escape can start is read as a destination. */
  lemma BareIsDestination(dest: string, rest: string, names: Names)
    requires dest != "" && IsBare(dest) && !HoldsControl(dest) && '\\' !in dest
    ensures ReadTarget(" " + (dest + (")" + rest)), names) == Some(Target(Read(dest, names), "", rest))
  {
    var close := ")" + rest;
    var s := dest + close;
    assert s[0] == dest[0];
    OneSpace(s);
    NoBackslashNoDangle(dest);
    BareEnds(dest, close);
    NoSpace(close);
    assert close[1..] == rest;
  }

  /** The title of an image without a source, a word without escapes, is taken for the
      source, quotes and all. */
  lemma TitleBecomesSource(word: string, rest: string, names: Names)
    requires word != "" && IsBare(word) && !HoldsControl(word) && '"' !in word && '\\' !in word
    ensures ReadTarget(MdTarget("", word) + (")" + rest), names)
         == Some(Target(Read("\"" + word + "\"", names), "", rest))
  {
    var quoted := "\"" + word + "\"";
    PlainTitle(word);
    TargetParts("", word, rest);
    assert MdDestination("") + Behind(word, rest) == " " + (quoted + (")" + rest));
    QuotedIsBare(word);
    BareIsDestination(quoted, rest, names);
  }

  lemma {:induction false} PlainTitle(word: string)
    requires '"' !in word && '\\' !in word
    ensures Escaped(Title, word) == word
  {
    if word != "" { PlainTitle(word[1..]); }
  }

  lemma {:induction false} NoBackslashNoDangle(s: string)
    requires '\\' !in s
    ensures !Dangling(s)
  {
    if s != "" { NoBackslashNoDangle(s[1..]); }
  }

  /** A bare destination that ends in a backslash takes the parenthesis that should
      close its link along. */
  lemma TrailingBackslashRunsOn(names: Names)
    ensures ReadTarget(MdTarget("\\", "") + (")" + ""), names) == None
  {
    var s := "\\" + (")" + "");
    assert !NeedsBrackets("\\") && MdTarget("\\", "") == "\\";
    NoSpace(s);
    assert EscapeStarts(s) && s[2..] == "" && s[..2] == s;
    assert RawPlain(s, 0) == (s[..2] + RawPlain(s[2..], 0).0, "");
  }

  // ------------------------------------------------------ images (section 6.4)

  /** mdImage. */
  function ImageOf(alt: string, src: string, title: string): string {
    "![" + EscapeText(alt) + "](" + (MdTarget(src, title) + ")")
  }

  /** The characters up to the closing bracket; a bare opening one would nest. */
  function RawLabel(s: string): Option<Reading>
    decreases |s|
  {
    if s == "" || s[0] == '[' then None
    else if s[0] == ']' then Some(("", s[1..]))
    else if EscapeStarts(s) then Prepend(s[..2], RawLabel(s[2..]))
    else Prepend([s[0]], RawLabel(s[1..]))
  }

  datatype Picture = Picture(alt: string, target: Target)

  /** The image that starts s: a description in brackets and a target in parentheses. */
  function ReadImage(s: string, names: Names): Option<Picture> {
    if |s| < 2 || s[..2] != "![" then None
    else
      match RawLabel(s[2..])
      case None => None
      case Some((raw, rest)) =>
        if rest == "" || rest[0] != '(' then None
        else
          match ReadTarget(rest[1..], names)
          case None => None
          case Some(target) => Some(Picture(Read(raw, names), target))
  }

  lemma {:induction false} LabelEnds(alt: string, rest: string)
    ensures RawLabel(EscapeText(alt) + ("]" + rest)) == Some((EscapeText(alt), rest))
  {
    if alt == "" {
      assert "" + ("]" + rest) == "]" + rest && ("]" + rest)[1..] == rest;
    } else {
      var p := if Special(alt[0]) then ['\\', alt[0]] else [alt[0]];
      var tail := EscapeText(alt[1..]);
      var s := tail + ("]" + rest);
      LabelEnds(alt[1..], rest);
      assert RawLabel(p + s) == Prepend(p, RawLabel(s)) by {
        assert (p + s)[|p|..] == s && (p + s)[..|p|] == p;
      }
      Regroup(p, tail, "]" + rest);
    }
  }

  lemma ImageParts(alt: string, src: string, title: string, rest: string)
    ensures var s := ImageOf(alt, src, title) + rest;
            && |s| >= 2 && s[..2] == "!["
            && s[2..] == EscapeText(alt) + ("]" + ("(" + (MdTarget(src, title) + (")" + rest))))
  {
    var e, target := EscapeText(alt), MdTarget(src, title);
    var s := ImageOf(alt, src, title) + rest;
    assert s == "![" + (e + ("]" + ("(" + (target + (")" + rest)))));
  }

  /** What a reader makes of an image is its description and what it makes of its target. */
  lemma ImageIsTarget(alt: string, src: string, title: string, rest: string, names: Names)
    ensures ReadImage(ImageOf(alt, src, title) + rest, names)
         == match ReadTarget(MdTarget(src, title) + (")" + rest), names)
            case None => None
            case Some(target) => Some(Picture(alt, target))
  {
    var behind := "(" + (MdTarget(src, title) + (")" + rest));
    ImageParts(alt, src, title, rest);
    LabelEnds(alt, behind);
    EscapeTextComesBack(alt);
    InertHasNoReference(EscapeText(alt), names);
    assert behind[1..] == MdTarget(src, title) + (")" + rest);
  }

  /** A reader gets an image back, description, source and title, if and only if it can
      take the target; the description it always gets back. */
  lemma ImageComesBackExactly(alt: string, src: string, title: string, rest: string, names: Names)
    requires Sensible(names)
    ensures ReadImage(ImageOf(alt, src, title) + rest, names) == Some(Picture(alt, Target(src, title, rest)))
       <==> TargetFits(src, title, names)
    ensures var r := ReadImage(ImageOf(alt, src, title) + rest, names); r.Some? ==> r.value.alt == alt
  {
    ImageIsTarget(alt, src, title, rest, names);
    TargetComesBackExactly(src, title, rest, names);
  }
}
