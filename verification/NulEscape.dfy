/** The search for a JSON-escaped NUL in the raw bytes of a document. */
module NulEscape {

  type Byte = b: int | 0 <= b < 256

  const BACKSLASH: Byte := 92

  /** The six bytes of an escaped NUL: a backslash, u and four zeros. */
  const NUL_ESCAPE: seq<Byte> := [92, 117, 48, 48, 48, 48]

  predicate EscapeAt(raw: seq<Byte>, i: int) {
    0 <= i && i + |NUL_ESCAPE| <= |raw| && raw[i..i + |NUL_ESCAPE|] == NUL_ESCAPE
  }

  /** How many backslashes stand directly before position i. */
  function SlashesBefore(raw: seq<Byte>, i: int): nat
    requires 0 <= i <= |raw|
  {
    if i > 0 && raw[i - 1] == BACKSLASH then SlashesBefore(raw, i - 1) + 1 else 0
  }

  /** An escaped NUL that is not itself escaped. */
  predicate LiveEscapeAt(raw: seq<Byte>, i: int) {
    EscapeAt(raw, i) && SlashesBefore(raw, i) % 2 == 0
  }

  /** containsNulEscape: at each occurrence the backslashes before it are counted
      backwards. */
  method ContainsNulEscape(raw: seq<Byte>) returns (found: bool)
    ensures found <==> exists i :: LiveEscapeAt(raw, i)
  {
    var i := 0;
    while i + |NUL_ESCAPE| <= |raw|
      invariant 0 <= i
      invariant forall k | k < i :: !LiveEscapeAt(raw, k)
    {
      if raw[i..i + |NUL_ESCAPE|] == NUL_ESCAPE {
        var slashes := 0;
        var j := i - 1;
        while j >= 0 && raw[j] == BACKSLASH
          invariant -1 <= j < i && slashes == i - 1 - j
          invariant SlashesBefore(raw, i) == slashes + SlashesBefore(raw, j + 1)
        {
          slashes := slashes + 1;
          j := j - 1;
        }
        if slashes % 2 == 0 {
          assert LiveEscapeAt(raw, i);
          return true;
        }
      }
      i := i + 1;
    }
    found := false;
  }

  /** A lexer of section 7 of RFC 8259: a backslash takes the next byte with it,
      and an escape of the code point zero is reported. */
  predicate LexesNul(raw: seq<Byte>, i: int)
    requires 0 <= i
    decreases |raw| - i
  {
    if i >= |raw| then false
    else if raw[i] != BACKSLASH then LexesNul(raw, i + 1)
    else EscapeAt(raw, i) || LexesNul(raw, i + 2)
  }

  lemma {:induction false} LexerFindsLive(raw: seq<Byte>, i: int)
    requires 0 <= i <= |raw| && SlashesBefore(raw, i) % 2 == 0
    ensures LexesNul(raw, i) <==> exists k :: k >= i && LiveEscapeAt(raw, k)
    decreases |raw| - i
  {
    if i == |raw| || i + 1 == |raw| {
    } else if raw[i] != BACKSLASH {
      LexerFindsLive(raw, i + 1);
    } else if EscapeAt(raw, i) {
      assert LiveEscapeAt(raw, i);
    } else {
      assert SlashesBefore(raw, i + 2) % 2 == 0;
      LexerFindsLive(raw, i + 2);
      assert SlashesBefore(raw, i + 1) % 2 == 1;
      assert forall k | k >= i && LiveEscapeAt(raw, k) :: k >= i + 2;
    }
  }

  /** Counting backslashes backwards and lexing forwards agree on every input. */
  lemma BackwardCountIsForwardLexing(raw: seq<Byte>)
    ensures LexesNul(raw, 0) <==> exists i :: LiveEscapeAt(raw, i)
  {
    LexerFindsLive(raw, 0);
    assert forall i | LiveEscapeAt(raw, i) :: i >= 0;
  }
}
