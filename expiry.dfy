/** The expiry advice: how often a password of a given strength score should be
    changed, written through the message catalogue. */
module Expiry {
  import opened Translation
  import Strength

  /** The three rotation periods the advice distinguishes. */
  datatype Rotation = TwelveMonths | SixMonths | ThreeMonths

  /** The length of a rotation period in months. */
  function Months(r: Rotation): (m: nat)
    ensures m in {3, 6, 12}
  {
    match r
    case TwelveMonths => 12
    case SixMonths => 6
    case ThreeMonths => 3
  }

  /** The catalogue key of each period's message. */
  function ExpiryKey(r: Rotation): string
  {
    match r
    case TwelveMonths => "password_expiry_12_months"
    case SixMonths => "password_expiry_6_months"
    case ThreeMonths => "password_expiry_3_months"
  }

  /** The branch `password_expiry` takes: a score of at least 4 earns twelve
      months, exactly 3 earns six, anything lower (negative scores included)
      three. */
  function Advise(score: int): (r: Rotation)
    ensures r == TwelveMonths <==> score >= 4
    ensures r == SixMonths <==> score == 3
    ensures r == ThreeMonths <==> score < 3
  {
    if score >= 4 then TwelveMonths
    else if score == 3 then SixMonths
    else ThreeMonths
  }

  /** `password_expiry`: the catalogue's message for the period, in the
      requested language. */
  function PasswordExpiry(catalog: Catalog, score: int, langCode: string): (message: Option<string>)
    ensures score >= 4 ==> message == GetTranslation(catalog, langCode, "password_expiry_12_months")
    ensures score == 3 ==> message == GetTranslation(catalog, langCode, "password_expiry_6_months")
    ensures score < 3 ==> message == GetTranslation(catalog, langCode, "password_expiry_3_months")
  {
    GetTranslation(catalog, langCode, ExpiryKey(Advise(score)))
  }

  // ---------------------------------------------------------------------------
  // Properties

  /** The three keys differ, so the three periods are never confused. */
  lemma ExpiryKeysDiffer(r: Rotation, s: Rotation)
    requires r != s
    ensures ExpiryKey(r) != ExpiryKey(s)
  {
  }

  /** A catalogue that has all three messages for the language always yields
      one; otherwise the lookup fails for the scores that need the missing key. */
  lemma PasswordExpiryDefined(catalog: Catalog, score: int, langCode: string)
    requires langCode in catalog
    requires forall r: Rotation :: ExpiryKey(r) in catalog[langCode]
    ensures PasswordExpiry(catalog, score, langCode).Some?
    ensures PasswordExpiry(catalog, score, langCode).value == catalog[langCode][ExpiryKey(Advise(score))]
  {
  }

  /** A higher score never shortens the period. */
  lemma RotationMonotone(score: int, higher: int)
    requires score <= higher
    ensures Months(Advise(score)) <= Months(Advise(higher))
  {
  }

  /** The scores the strength scorer produces, 0 to 5, give three months for
      0 to 2, six for 3 and twelve for 4 and 5. */
  lemma RotationOfScores()
    ensures forall s :: 0 <= s <= 2 ==> Months(Advise(s)) == 3
    ensures Months(Advise(3)) == 6
    ensures Months(Advise(4)) == 12 && Months(Advise(5)) == 12
  {
  }

  /** A password that passes every scored check may be kept for twelve months,
      whether or not it contains a denylisted word: the denylist never changes
      the score. */
  lemma StrongPasswordKeptTwelveMonths(p: string)
    requires |p| >= Strength.MinimumLength
    requires Strength.HasUpper(p) && Strength.HasLower(p) && Strength.HasDigit(p) && Strength.HasSpecial(p)
    ensures Advise(Strength.Score(p)) == TwelveMonths
  {
    Strength.FullMarksIffStrong(p);
  }

  /** The empty password is advised the shortest period. */
  lemma EmptyPasswordKeptThreeMonths()
    ensures Advise(Strength.Score("")) == ThreeMonths
  {
    Strength.EmptyPasswordFailsEveryCheck();
  }
}
