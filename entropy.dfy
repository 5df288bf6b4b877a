/** The entropy estimate: the password's length times the number of bits needed
    to write down how many distinct characters it uses. */
module Entropy {

  /** 2 to the power `n`. */
  function Pow2(n: nat): (r: nat)
    ensures r >= 1
  {
    if n == 0 then 1 else 2 * Pow2(n - 1)
  }

  /** Python's `int.bit_length()` on a non-negative integer: the least `b` with
      `k < 2^b`, so 0 for 0 and otherwise the position of the leading one bit. */
  function BitLength(k: nat): (b: nat)
    ensures k < Pow2(b)
    ensures b > 0 ==> Pow2(b - 1) <= k
    ensures b == 0 <==> k == 0
    decreases k
  {
    if k == 0 then 0 else 1 + BitLength(k / 2)
  }

  /** Powers of two grow with the exponent. */
  lemma {:induction false} Pow2Monotone(m: nat, n: nat)
    requires m <= n
    ensures Pow2(m) <= Pow2(n)
    decreases n
  {
    if m < n {
      Pow2Monotone(m, n - 1);
    }
  }

  /** The bit length is the only `b` with `2^(b-1) <= k < 2^b`. */
  lemma BitLengthUnique(k: nat, b: nat)
    requires k < Pow2(b)
    requires b > 0 ==> Pow2(b - 1) <= k
    ensures BitLength(k) == b
  {
    var c := BitLength(k);
    if c < b {
      Pow2Monotone(c, b - 1);
    } else if c > b {
      Pow2Monotone(b, c - 1);
    }
  }

  /** A larger number never has fewer bits. */
  lemma {:induction false} BitLengthMonotone(j: nat, k: nat)
    requires j <= k
    ensures BitLength(j) <= BitLength(k)
    decreases k
  {
    if j > 0 {
      BitLengthMonotone(j / 2, k / 2);
    }
  }

  /** `set(password)`: the characters the password uses. */
  function Distinct(p: string): (s: set<char>)
    ensures forall c :: c in s <==> c in p
    ensures |s| <= |p|
    ensures |p| > 0 ==> |s| >= 1
  {
    if |p| == 0 then {}
    else
      var s := Distinct(p[..|p| - 1]) + {p[|p| - 1]};
      assert p == p[..|p| - 1] + [p[|p| - 1]];
      s
  }

  /** `calculate_entropy`: `len(password) * len(set(password)).bit_length()`. */
  function CalculateEntropy(p: string): (e: nat)
    ensures e == 0 <==> |p| == 0
  {
    var n := |p|;
    var b := BitLength(|Distinct(p)|);
    assert n > 0 ==> b > 0;
    MulZero(n, b);
    n * b
  }

  // Facts about products, stated on their own so that the solver meets each
  // multiplication in a small context.

  lemma MulZero(n: nat, b: nat)
    ensures n * b == 0 <==> (n == 0 || b == 0)
  {
  }

  lemma MulMonotoneLeft(m: nat, n: nat, b: nat)
    requires m <= n
    ensures m * b <= n * b
  {
  }

  lemma MulTwice(n: nat, b: nat)
    ensures (n + n) * b == 2 * (n * b)
  {
  }

  lemma MulMonotone(n: nat, a: nat, b: nat)
    requires a <= b
    ensures n * a <= n * b
  {
  }

  // ---------------------------------------------------------------------------
  // Properties of the estimate

  /** A non-empty password scores at least one bit per character, and at most as
      many as if every character differed from the others. */
  lemma EntropyBounds(p: string)
    requires |p| > 0
    ensures |p| <= CalculateEntropy(p) <= |p| * BitLength(|p|)
  {
    BitLengthMonotone(|Distinct(p)|, |p|);
    BitLengthMonotone(1, |Distinct(p)|);
    MulMonotone(|p|, BitLength(|Distinct(p)|), BitLength(|p|));
    MulMonotone(|p|, 1, BitLength(|Distinct(p)|));
  }

  /** Writing a password twice uses no new character, so it doubles the estimate. */
  lemma EntropyOfRepetition(p: string)
    ensures CalculateEntropy(p + p) == 2 * CalculateEntropy(p)
  {
    assert Distinct(p + p) == Distinct(p);
    MulTwice(|p|, BitLength(|Distinct(p)|));
  }

  /** Two passwords with equally many distinct characters: the longer one scores
      at least as much. */
  lemma EntropyGrowsWithLength(p: string, q: string)
    requires |p| <= |q|
    requires |Distinct(p)| == |Distinct(q)|
    ensures CalculateEntropy(p) <= CalculateEntropy(q)
  {
    MulMonotoneLeft(|p|, |q|, BitLength(|Distinct(p)|));
  }

  /** Two passwords of the same length: the one using more distinct characters
      scores at least as much. */
  lemma EntropyGrowsWithVariety(p: string, q: string)
    requires |p| == |q|
    requires |Distinct(p)| <= |Distinct(q)|
    ensures CalculateEntropy(p) <= CalculateEntropy(q)
  {
    BitLengthMonotone(|Distinct(p)|, |Distinct(q)|);
    MulMonotone(|p|, BitLength(|Distinct(p)|), BitLength(|Distinct(q)|));
  }

  /** A password that repeats one character scores one bit per character. */
  lemma EntropyOfOneCharacter(p: string, c: char)
    requires |p| > 0
    requires forall i :: 0 <= i < |p| ==> p[i] == c
    ensures CalculateEntropy(p) == |p|
  {
    assert p[0] == c;
    assert Distinct(p) == {c};
    BitLengthUnique(1, 1);
  }

  /** No character of `p` appears twice. */
  predicate AllDifferent(p: string)
  {
    forall i, j :: 0 <= i < j < |p| ==> p[i] != p[j]
  }

  /** A password without repeated characters has as many distinct characters as
      it is long. */
  lemma {:induction false} DistinctOfAllDifferent(p: string)
    requires AllDifferent(p)
    ensures |Distinct(p)| == |p|
  {
    if |p| > 0 {
      var front := p[..|p| - 1];
      assert AllDifferent(front);
      DistinctOfAllDifferent(front);
      assert p[|p| - 1] !in front;
    }
  }

  /** Without repeated characters the upper bound of `EntropyBounds` is met. */
  lemma EntropyOfAllDifferent(p: string)
    requires AllDifferent(p)
    ensures CalculateEntropy(p) == |p| * BitLength(|p|)
  {
    DistinctOfAllDifferent(p);
  }

  /** Four different characters need three bits each. */
  lemma EntropyOfFourDifferent()
    ensures CalculateEntropy("abcd") == 12
  {
    EntropyOfAllDifferent("abcd");
    BitLengthUnique(4, 3);
  }
}
