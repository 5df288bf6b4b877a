/** Character classes and string operations the password checks are built from.
    The regular-expression ranges `[A-Z]` and `[a-z]` are code-point ranges and are
    modelled exactly. For `\d`, `str.lower()` and `str.upper()` only the ASCII
    behaviour is modelled: no non-ASCII character counts as a digit, and case
    mapping leaves every non-ASCII character unchanged. */
module Text {

  predicate IsAsciiUpper(c: char) { 'A' <= c <= 'Z' }

  predicate IsAsciiLower(c: char) { 'a' <= c <= 'z' }

  predicate IsAsciiDigit(c: char) { '0' <= c <= '9' }

  /** Python's `str.lower()` on one character, restricted to ASCII. */
  function LowerChar(c: char): (l: char)
    ensures IsAsciiUpper(c) ==> IsAsciiLower(l) && l as int == c as int + 32
    ensures !IsAsciiUpper(c) ==> l == c
  {
    if IsAsciiUpper(c) then (c as int + 32) as char else c
  }

  /** Python's `str.upper()` on one character, restricted to ASCII. */
  function UpperChar(c: char): (u: char)
    ensures IsAsciiLower(c) ==> IsAsciiUpper(u) && u as int == c as int - 32
    ensures !IsAsciiLower(c) ==> u == c
  {
    if IsAsciiLower(c) then (c as int - 32) as char else c
  }

  /** `s.upper()`: same length, each character upper-cased on its own. */
  function ToUpper(s: string): (r: string)
    ensures |r| == |s|
    ensures forall i :: 0 <= i < |s| ==> r[i] == UpperChar(s[i])
  {
    seq(|s|, i requires 0 <= i < |s| => UpperChar(s[i]))
  }

  /** `s.lower()`: same length, each character lower-cased on its own. */
  function ToLower(s: string): (r: string)
    ensures |r| == |s|
    ensures forall i :: 0 <= i < |s| ==> r[i] == LowerChar(s[i])
  {
    seq(|s|, i requires 0 <= i < |s| => LowerChar(s[i]))
  }

  /** `pattern` occurs in `text` starting at position `i`. */
  predicate OccursAt(text: string, pattern: string, i: int)
  {
    0 <= i && i + |pattern| <= |text| && text[i..i + |pattern|] == pattern
  }

  /** Python's `pattern in text` for strings: a left-to-right search for an
      occurrence. The empty pattern occurs in every text. */
  function Contains(text: string, pattern: string): (r: bool)
    ensures |pattern| == 0 ==> r
    ensures r ==> |pattern| <= |text|
    decreases |text|
  {
    if |pattern| > |text| then false
    else if text[..|pattern|] == pattern then true
    else Contains(text[1..], pattern)
  }

  /** The search finds an occurrence exactly when there is one. */
  lemma {:induction false} ContainsIffOccurs(text: string, pattern: string)
    ensures Contains(text, pattern) <==> exists i :: OccursAt(text, pattern, i)
    decreases |text|
  {
    if |pattern| > |text| {
      assert forall i :: !OccursAt(text, pattern, i);
    } else if text[..|pattern|] == pattern {
      assert OccursAt(text, pattern, 0);
    } else {
      ContainsIffOccurs(text[1..], pattern);
      OccursAtShift(text, pattern);
    }
  }

  /** An occurrence in `text` past the first position is an occurrence in `text[1..]`. */
  lemma OccursAtShift(text: string, pattern: string)
    requires |text| > 0
    requires !OccursAt(text, pattern, 0)
    ensures (exists i :: OccursAt(text, pattern, i)) <==> (exists j :: OccursAt(text[1..], pattern, j))
  {
    forall i | OccursAt(text, pattern, i)
      ensures OccursAt(text[1..], pattern, i - 1)
    {
      assert text[1..][i - 1..i - 1 + |pattern|] == text[i..i + |pattern|];
    }
    forall j | OccursAt(text[1..], pattern, j)
      ensures OccursAt(text, pattern, j + 1)
    {
      assert text[1..][j..j + |pattern|] == text[j + 1..j + 1 + |pattern|];
    }
  }
}
