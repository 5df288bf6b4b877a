/** The password generator: `length` characters, each drawn from a fixed
    alphabet. The random draws are an input: the `k`-th draw is the position in
    the alphabet of the `k`-th character. */
module Generator {
  import opened Text
  import Strength
  import Entropy

  const UpperLetters := "ABCDEFGHIJKLMNOPQRSTUVWXYZ"
  const LowerLetters := "abcdefghijklmnopqrstuvwxyz"
  const DecimalDigits := "0123456789"
  const Symbols := "!@#$%^&*()?"

  /** The characters the generator draws from, in the order of the generator's
      string literal, written as its four runs: upper- and lower-case letters,
      digits and eleven symbols, 73 characters in all. */
  const Alphabet := UpperLetters + LowerLetters + DecimalDigits + Symbols

  /** `generate_password`: one drawn character per step of `range(length)`, so a
      negative length gives the empty password. */
  method GeneratePassword(length: int, draws: seq<nat>) returns (pw: string)
    requires length <= |draws|
    requires forall k :: 0 <= k < |draws| ==> draws[k] < |Alphabet|
    ensures |pw| == if length < 0 then 0 else length
    ensures forall k :: 0 <= k < |pw| ==> pw[k] == Alphabet[draws[k]]
  {
    pw := "";
    var i := 0;
    while i < length
      invariant 0 <= i
      invariant length >= 0 ==> i <= length
      invariant length < 0 ==> i == 0
      invariant |pw| == i
      invariant forall k :: 0 <= k < i ==> pw[k] == Alphabet[draws[k]]
    {
      pw := pw + [Alphabet[draws[i]]];
      i := i + 1;
    }
  }

  // ---------------------------------------------------------------------------
  // Properties of the alphabet

  /** `c` belongs to one of the character classes the strength scorer scores. */
  predicate IsScoredChar(c: char)
  {
    IsAsciiUpper(c) || IsAsciiLower(c) || IsAsciiDigit(c) || Strength.IsSpecial(c)
  }

  lemma UpperLettersAreUpper(c: char)
    requires c in UpperLetters
    ensures IsAsciiUpper(c)
  {
  }

  lemma LowerLettersAreLower(c: char)
    requires c in LowerLetters
    ensures IsAsciiLower(c)
  {
  }

  lemma SymbolsAreSpecial(c: char)
    requires c in Symbols
    ensures Strength.IsSpecial(c)
  {
  }

  /** The alphabet has 73 characters. */
  lemma AlphabetSize()
    ensures |Alphabet| == 73
  {
  }

  /** Every character the generator can produce belongs to one of the
      character classes the strength scorer scores: the eleven symbols are all
      among the scorer's special characters. */
  lemma AlphabetIsScored(c: char)
    requires c in Alphabet
    ensures IsScoredChar(c)
  {
    if c in UpperLetters {
      UpperLettersAreUpper(c);
    } else if c in LowerLetters {
      LowerLettersAreLower(c);
    } else if c in Symbols {
      SymbolsAreSpecial(c);
    }
  }

  /** So every character of a generated password does. */
  lemma GeneratedCharactersAreScored(pw: string, draws: seq<nat>)
    requires forall k :: 0 <= k < |draws| ==> draws[k] < |Alphabet|
    requires |pw| <= |draws|
    requires forall k :: 0 <= k < |pw| ==> pw[k] == Alphabet[draws[k]]
    ensures forall k :: 0 <= k < |pw| ==> IsScoredChar(pw[k])
  {
    forall k | 0 <= k < |pw|
      ensures IsScoredChar(pw[k])
    {
      AlphabetIsScored(pw[k]);
    }
  }

  /** A subset has no more elements than the set that contains it. */
  lemma SubsetCard(a: set<char>, b: set<char>)
    requires a <= b
    ensures |a| <= |b|
  {
    assert b == a + (b - a);
  }

  /** A generated password can use at most the 73 characters of the alphabet,
      so its entropy estimate is at most 7 bits per character. */
  lemma GeneratedEntropyAtMostSevenBitsPerCharacter(pw: string, draws: seq<nat>)
    requires forall k :: 0 <= k < |draws| ==> draws[k] < |Alphabet|
    requires |pw| <= |draws|
    requires forall k :: 0 <= k < |pw| ==> pw[k] == Alphabet[draws[k]]
    ensures Entropy.CalculateEntropy(pw) <= 7 * |pw|
  {
    var used := Entropy.Distinct(pw);
    var all := Entropy.Distinct(Alphabet);
    assert used <= all by {
      forall c | c in used ensures c in all {
        var k :| 0 <= k < |pw| && pw[k] == c;
        assert Alphabet[draws[k]] == c;
      }
    }
    SubsetCard(used, all);
    assert |all| <= 73;
    Entropy.BitLengthMonotone(|used|, 73);
    Entropy.BitLengthUnique(73, 7);
    Entropy.MulMonotone(|pw|, Entropy.BitLength(|used|), 7);
  }
}
