/** The string operations of Go's strings package the service leans on, over
    code points. */
module Text {

  /** unicode.IsSpace. */
  predicate IsSpace(c: char) {
    || '\t' <= c <= '\r' || c == ' ' || c == '\U{85}' || c == '\U{A0}' || c == '\U{1680}'
    || '\U{2000}' <= c <= '\U{200A}' || c == '\U{2028}' || c == '\U{2029}' || c == '\U{202F}'
    || c == '\U{205F}' || c == '\U{3000}'
  }

  /** A space or a tab. */
  predicate IsBlank(c: char) {
    c == ' ' || c == '\t'
  }

  predicate AllSpace(s: string) {
    forall c | c in s :: IsSpace(c)
  }

  /** How many characters of a class s starts with. */
  function Leading(s: string, drop: char -> bool): (n: nat)
    ensures n <= |s| && (forall i | 0 <= i < n :: drop(s[i])) && (n < |s| ==> !drop(s[n]))
  {
    if s != "" && drop(s[0]) then 1 + Leading(s[1..], drop) else 0
  }

  /** strings.TrimLeft over a class of characters. */
  function TrimLeft(s: string, drop: char -> bool): (r: string)
    ensures |r| <= |s| && r == s[|s| - |r|..]
    ensures forall i | 0 <= i < |s| - |r| :: drop(s[i])
    ensures r != "" ==> !drop(r[0])
  {
    s[Leading(s, drop)..]
  }

  /** strings.TrimRight over a class of characters. */
  function TrimRight(s: string, drop: char -> bool): (r: string)
    ensures r <= s && (forall i | |r| <= i < |s| :: drop(s[i]))
    ensures r != "" ==> !drop(r[|r| - 1])
  {
    if s != "" && drop(s[|s| - 1]) then TrimRight(s[..|s| - 1], drop) else s
  }

  /** strings.TrimSpace. */
  function TrimSpace(s: string): (r: string)
    ensures r != "" ==> !IsSpace(r[0]) && !IsSpace(r[|r| - 1])
    ensures |r| <= |s|
  {
    TrimRight(TrimLeft(s, IsSpace), IsSpace)
  }

  /** The text without spaces and tabs at its ends. */
  function TrimBlanks(s: string): (r: string)
    ensures |r| <= |s|
    ensures r != "" ==> !IsBlank(r[0]) && !IsBlank(r[|r| - 1])
  {
    TrimRight(TrimLeft(s, IsBlank), IsBlank)
  }

  lemma TrimBlanksKeeps(s: string)
    ensures TrimBlanks(s) == s <==> s == "" || (!IsBlank(s[0]) && !IsBlank(s[|s| - 1]))
    ensures TrimBlanks(s) != s ==> |TrimBlanks(s)| < |s|
  {
    var l := TrimLeft(s, IsBlank);
    if |TrimRight(l, IsBlank)| == |s| {
      assert l == s;
    } else if s != "" && !IsBlank(s[0]) {
      assert l == s;
    }
  }

  predicate MatchAt(s: string, pat: string, i: int) {
    0 <= i <= |s| - |pat| && s[i..i + |pat|] == pat
  }

  /** strings.Contains. */
  predicate Contains(s: string, pat: string) {
    exists i: nat | i <= |s| :: MatchAt(s, pat, i)
  }

  /** strings.ReplaceAll: leftmost matches, never overlapping. */
  function ReplaceAll(s: string, pat: string, sub: string): string
    requires pat != ""
  {
    if |s| < |pat| then s
    else if s[..|pat|] == pat then sub + ReplaceAll(s[|pat|..], pat, sub)
    else [s[0]] + ReplaceAll(s[1..], pat, sub)
  }

  /** strings.Join. */
  function Join(parts: seq<string>, sep: string): string {
    if parts == [] then "" else if |parts| == 1 then parts[0] else parts[0] + sep + Join(parts[1..], sep)
  }

  /** strconv.Itoa of what is not negative. */
  function Itoa(n: nat): (s: string)
    ensures s != ""
  {
    (if n < 10 then "" else Itoa(n / 10)) + [(n % 10) as char + '0']
  }

  function PowerOfTen(k: nat): nat {
    if k == 0 then 1 else 10 * PowerOfTen(k - 1)
  }

  /** A number has at most k digits exactly when it is below ten to the k. */
  lemma {:induction false} ItoaDigits(n: nat, k: nat)
    requires k > 0
    ensures forall i | 0 <= i < |Itoa(n)| :: '0' <= Itoa(n)[i] <= '9'
    ensures |Itoa(n)| <= k <==> n < PowerOfTen(k)
    decreases n
  {
    if n < 10 {
      PowerGrows(k);
    } else if k == 1 {
      ItoaDigits(n / 10, 1);
      assert PowerOfTen(1) == 10 * PowerOfTen(0) == 10;
    } else {
      ItoaDigits(n / 10, k - 1);
    }
  }

  lemma {:induction false} PowerGrows(k: nat)
    requires k > 0
    ensures PowerOfTen(k) >= 10
  {
    if k > 1 { PowerGrows(k - 1); }
  }

  /** strings.Split on one character: always at least one part. */
  function Split(s: string, sep: char): (parts: seq<string>)
    ensures parts != []
  {
    if s == "" then [""]
    else
      var rest := Split(s[1..], sep);
      if s[0] == sep then [""] + rest else [[s[0]] + rest[0]] + rest[1..]
  }

  lemma {:induction false} JoinSplit(s: string, sep: char)
    ensures Join(Split(s, sep), [sep]) == s
  {
    if s != "" {
      JoinSplit(s[1..], sep);
      var rest := Split(s[1..], sep);
      if s[0] == sep {
        assert ([""] + rest)[1..] == rest;
      } else {
        assert ([[s[0]] + rest[0]] + rest[1..])[1..] == rest[1..];
      }
    }
  }

  lemma {:induction false} SplitHasNoSep(s: string, sep: char, i: nat)
    requires i < |Split(s, sep)|
    ensures sep !in Split(s, sep)[i]
  {
    if s != "" {
      if s[0] == sep {
        if i > 0 { SplitHasNoSep(s[1..], sep, i - 1); }
      } else {
        SplitHasNoSep(s[1..], sep, i);
      }
    }
  }

  lemma {:induction false} SplitOfOne(s: string, sep: char)
    requires sep !in s
    ensures Split(s, sep) == [s]
  {
    if s != "" {
      SplitOfOne(s[1..], sep);
      assert [s[1..]][1..] == [] && [s[0]] + s[1..] == s;
    }
  }

  lemma {:induction false} SplitPart(part: string, sep: char, tail: string)
    requires sep !in part
    ensures Split(part + [sep] + tail, sep) == [part] + Split(tail, sep)
  {
    var s := part + [sep] + tail;
    if part == "" {
      assert s[1..] == tail;
    } else {
      assert s[1..] == part[1..] + [sep] + tail;
      SplitPart(part[1..], sep, tail);
      assert [part[0]] + part[1..] == part;
      assert ([part[1..]] + Split(tail, sep))[1..] == Split(tail, sep);
    }
  }

  /** Parts without the separator come back as they were. */
  lemma {:induction false} SplitJoin(parts: seq<string>, sep: char)
    requires parts != [] && forall p | p in parts :: sep !in p
    ensures Split(Join(parts, [sep]), sep) == parts
  {
    if |parts| == 1 {
      SplitOfOne(parts[0], sep);
    } else {
      var tail := parts[1..];
      assert forall p | p in tail :: p in parts;
      SplitJoin(tail, sep);
      SplitPart(parts[0], sep, Join(tail, [sep]));
      assert [parts[0]] + tail == parts;
    }
  }

  lemma {:induction false} ReplaceShortens(s: string, pat: string, sub: string)
    requires pat != "" && |sub| < |pat|
    ensures |ReplaceAll(s, pat, sub)| <= |s|
    ensures Contains(s, pat) ==> |ReplaceAll(s, pat, sub)| < |s|
  {
    if |s| < |pat| {
    } else if s[..|pat|] == pat {
      ReplaceShortens(s[|pat|..], pat, sub);
    } else {
      ReplaceShortens(s[1..], pat, sub);
      if Contains(s, pat) {
        var i: nat :| i <= |s| && MatchAt(s, pat, i);
        assert MatchAt(s[1..], pat, i - 1);
      }
    }
  }

  /** How many spaces s starts with. */
  function Indent(s: string): (n: nat)
    ensures n <= |s| && (forall i | 0 <= i < n :: s[i] == ' ') && (n < |s| ==> s[n] != ' ')
  {
    if s == "" || s[0] != ' ' then 0 else 1 + Indent(s[1..])
  }

  // ------------------------------------------------- what is not whitespace

  /** The characters of s that are not whitespace, in order. */
  function Letters(s: string): string {
    if s == "" then "" else (if IsSpace(s[0]) then "" else [s[0]]) + Letters(s[1..])
  }

  lemma {:induction false} LettersConcat(a: string, b: string)
    ensures Letters(a + b) == Letters(a) + Letters(b)
  {
    if a == "" {
      assert a + b == b;
    } else {
      assert (a + b)[1..] == a[1..] + b;
      LettersConcat(a[1..], b);
    }
  }

  lemma {:induction false} SpaceHasNoLetters(s: string)
    requires AllSpace(s)
    ensures Letters(s) == ""
  {
    if s != "" {
      SpaceHasNoLetters(s[1..]);
    }
  }

  lemma {:induction false} ReplaceKeepsLetters(s: string, pat: string, sub: string)
    requires pat != "" && AllSpace(pat) && AllSpace(sub)
    ensures Letters(ReplaceAll(s, pat, sub)) == Letters(s)
  {
    if |s| < |pat| {
    } else if s[..|pat|] == pat {
      ReplaceKeepsLetters(s[|pat|..], pat, sub);
      LettersConcat(sub, ReplaceAll(s[|pat|..], pat, sub));
      LettersConcat(pat, s[|pat|..]);
      assert s == pat + s[|pat|..];
      SpaceHasNoLetters(sub);
      SpaceHasNoLetters(pat);
    } else {
      ReplaceKeepsLetters(s[1..], pat, sub);
    }
  }

  lemma TrimRightKeepsLetters(s: string, drop: char -> bool)
    requires forall c | drop(c) :: IsSpace(c)
    ensures Letters(TrimRight(s, drop)) == Letters(s)
  {
    var r := TrimRight(s, drop);
    assert s == r + s[|r|..];
    LettersConcat(r, s[|r|..]);
    SpaceHasNoLetters(s[|r|..]);
  }

  lemma TrimSpaceKeepsLetters(s: string)
    ensures Letters(TrimSpace(s)) == Letters(s)
  {
    var r := TrimLeft(s, IsSpace);
    assert s == s[..|s| - |r|] + r;
    LettersConcat(s[..|s| - |r|], r);
    SpaceHasNoLetters(s[..|s| - |r|]);
    TrimRightKeepsLetters(r, IsSpace);
  }

  lemma StretchContains(s: string, k: nat, r: string, pat: string)
    requires k + |r| <= |s| && s[k..k + |r|] == r && Contains(r, pat)
    ensures Contains(s, pat)
  {
    var i: nat :| i <= |r| && MatchAt(r, pat, i);
    forall j | 0 <= j < |pat| ensures s[k + i + j] == pat[j] {
      assert r[i + j] == r[i..i + |pat|][j] && s[k..k + |r|][i + j] == s[k + i + j];
    }
    assert MatchAt(s, pat, k + i);
  }

  lemma PrefixOfTail(s: string, k: nat, r: string)
    requires k <= |s| && r <= s[k..]
    ensures k + |r| <= |s| && s[k..k + |r|] == r
  {
  }

  /** A trimmed text is a stretch of the text. */
  lemma TrimSpaceStretch(s: string) returns (k: nat)
    ensures k + |TrimSpace(s)| <= |s| && s[k..k + |TrimSpace(s)|] == TrimSpace(s)
  {
    var l := TrimLeft(s, IsSpace);
    k := |s| - |l|;
    PrefixOfTail(s, k, TrimRight(l, IsSpace));
  }

  lemma TrimSpaceContained(s: string, pat: string)
    requires Contains(TrimSpace(s), pat)
    ensures Contains(s, pat)
  {
    var k := TrimSpaceStretch(s);
    StretchContains(s, k, TrimSpace(s), pat);
  }

  lemma Regroup(a: string, b: string, c: string)
    ensures a + b + c == a + (b + c)
  {
  }

  function Concat(parts: seq<string>): string {
    if parts == [] then "" else parts[0] + Concat(parts[1..])
  }

  lemma {:induction false} JoinKeepsLetters(parts: seq<string>, sep: string)
    requires AllSpace(sep)
    ensures Letters(Join(parts, sep)) == Letters(Concat(parts))
  {
    if parts == [] {
    } else if |parts| == 1 {
      LettersConcat(parts[0], Concat(parts[1..]));
    } else {
      JoinKeepsLetters(parts[1..], sep);
      LettersConcat(parts[0] + sep, Join(parts[1..], sep));
      LettersConcat(parts[0], sep);
      SpaceHasNoLetters(sep);
      LettersConcat(parts[0], Concat(parts[1..]));
    }
  }

  /** Two texts, the empty ones left out. */
  function Parts(a: string, b: string): seq<string> {
    (if a != "" then [a] else []) + (if b != "" then [b] else [])
  }

  lemma PartsConcat(a: string, b: string)
    ensures Concat(Parts(a, b)) == a + b
  {
    var parts := Parts(a, b);
    if a != "" && b != "" {
      assert parts[1..] == [b] && Concat([b]) == b + Concat([]);
    } else if a != "" {
      assert parts == [a];
    } else if b != "" {
      assert parts == [b];
    }
  }
}
