# Password evaluation core in Dafny

This project models the evaluation core of a small password-checking web
application (`app.py`) and proves properties of that model. The core has five parts:

- **Strength scorer** (`check_password_strength`). It runs five rule checks in a
  fixed order: at least 12 characters, an upper-case letter, a lower-case
  letter, a digit, and a special character from `!@#$%^&*(),.?":{}|<>`. Each passed
  check adds one point. Each failed check appends one feedback message in French
  for language code `"fr"`, and in English otherwise. A final denylist check
  looks for `password`, `12345` or `qwerty` in the lower-cased password. It adds
  an advisory message and never changes the score.
- **Entropy estimator** (`calculate_entropy`): length times the bit length of the
  number of distinct characters.
- **Breach check** (`check_breach`). It uses the k-anonymity range query: the
  upper-case SHA-1 hex digest is split into a 5-character prefix and a
  35-character suffix. Only the prefix is sent to
  `https://api.pwnedpasswords.com/range/`. The password counts as breached when
  the suffix occurs in the answer.
- **Rotation advisor** (`password_expiry`). A score of 4 or more gives 12 months,
  3 gives 6 months, and anything lower gives 3 months. The choice is rendered
  through the message catalogue.
- **Password generator** (`generate_password`): `length` characters drawn from a
  fixed 73-character alphabet.

The modules follow these parts: `Text` (character classes, ASCII case mapping,
substring search), `Translation` (language choice and the catalogue lookup),
`Strength`, `Entropy`, `Breach`, `Expiry` and `Generator`.

The scorer is an imperative method, `Strength.CheckPasswordStrength`. It builds the
score and the feedback list step by step, as the source does. It is proved
equal to two reference definitions: `Score`, the number of scored checks passed,
and `FeedbackChecks`, the failed checks in check order. The lemmas about the
scorer are stated about these definitions. The source repeats one
`if …: score += 1 else: feedback.append(…)` block for each of the five checks.
The model writes that block once, as `Strength.ApplyCheck`, and calls it five
times in the same order. The `any(…)` search over the denylist is a loop that
stops at the first match (`Strength.ContainsCommonWord`). The generator is a
method with a loop, one character per step of `range(length)`.

The model takes these things from its caller as parameters:

- The random choices of `random.choice`, as a sequence of alphabet positions.
- The SHA-1 hex digest function and the HTTP GET, as function parameters of
  `Breach.CheckBreach`.
- The translation table, as a map from language code to a map from key to text.

The literal at `app.py:130` has 26 + 26 + 10 + 11 = 73 characters;
`Generator.AlphabetSize` proves it. The model writes the literal as its four
runs (`UpperLetters + LowerLetters + DecimalDigits + Symbols`). That is the same
string in the same order, and it lets the class of each character be proved one
run at a time.

## Model

| member | source | states |
|---|---|---|
| Text.Contains | app.py:99 | Python's `pattern in text` (here and in the breach test at `app.py:112`), a left-to-right search: the empty pattern is always found, and a pattern longer than the text never is |
| Text.ContainsIffOccurs | app.py:99 | Python's substring test `pattern in text` is true exactly when the pattern occurs at some position of the text |
| Text.ToLower | app.py:99 | `password.lower()` keeps the length and maps every ASCII upper-case letter to its own lower-case counterpart (code point + 32), leaving every other character as it is |
| Text.ToUpper | app.py:105 | `.upper()` on the hex digest keeps the length and maps every ASCII lower-case letter to its own upper-case counterpart (code point − 32), leaving every other character as it is |
| Translation.GetTranslation | app.py:62-63 | `translations[lang_code][key]` gives the stored text exactly when the language code and then the key are present, and fails (the source's `KeyError`) otherwise |
| Translation.FeedbackLang | app.py:76 | feedback is written in French exactly when the language code is `"fr"`, and in English for every other code |
| Strength.Localize | app.py:73-100 | each reported check becomes one message in the selected language, in the same position |
| Strength.ApplyCheck | app.py:73-96 | one scored check: after check k the score is the number of the first k+1 checks passed, and the feedback holds the messages of those failed, in order |
| Strength.ApplyDenylist | app.py:98-100 | the advisory message is appended exactly when a denylisted word occurs, completing the feedback list |
| Strength.ContainsCommonWord | app.py:98-99 | the search over the denylist is true exactly when one of `password`, `12345`, `qwerty` occurs in the lower-cased password |
| Strength.CheckPasswordStrength | app.py:69-102 | the returned score is the number of scored checks passed, and the returned feedback is the failed checks in check order, localized to the selected language |
| Strength.PassedPlusFailed | app.py:73-96 | every scored check either adds a point or a message: points plus messages equal the number of checks run |
| Strength.FailedMembers | app.py:73-100 | a check is reported exactly when it was run and the password fails it |
| Strength.FailedKeepsOrder | app.py:73-100 | reporting preserves the order in which checks are run |
| Strength.ScoreCountsPassedChecks | app.py:73-96 | the score is the sum, over length, upper-case, lower-case, digit and special character, of one for each check passed |
| Strength.FeedbackIsFailedChecks | app.py:73-100 | the feedback is the failed length, upper-case, lower-case, digit and special-character checks in that order, then the denylist advisory when it matched |
| Strength.ScoreAndFeedbackSizes | app.py:69-102 | the score is between 0 and 5; there are 5 − score failure messages plus one when the denylist matched, at most 6 |
| Strength.FeedbackInCheckOrder | app.py:73-100 | the messages appear in the order the checks are run |
| Strength.AdvisoryComesLast | app.py:98-100 | the advisory message appears exactly when a denylisted word occurs; then it is the last message, and no earlier message is advisory |
| Strength.EmptyPasswordFailsEveryCheck | app.py:69-102 | the empty password scores 0 and receives exactly the five failure messages, length first |
| Strength.StrongPasswordPassesEveryCheck | app.py:69-102 | a password of at least 12 characters with all four character classes and no denylisted word scores 5 with empty feedback |
| Strength.FullMarksIffStrong | app.py:69-102 | score 5 holds exactly when all five scored checks pass; empty feedback holds exactly when, in addition, no denylisted word occurs |
| Strength.CapitalisedPasswordIsDenylisted | app.py:98-100 | `"Password1!"` contains `password` once lower-cased, so its feedback includes the advisory message |
| Entropy.BitLength | app.py:118 | `int.bit_length()`: the result b is the least number with k < 2^b; it is 0 exactly for k = 0 |
| Entropy.BitLengthUnique | app.py:118 | the bit length of k is the only b with 2^(b−1) ≤ k < 2^b |
| Entropy.BitLengthMonotone | app.py:118 | a larger number never has a smaller bit length |
| Entropy.Distinct | app.py:117 | `set(password)` holds exactly the characters of the password; its size is at most the length, and at least 1 for a non-empty password |
| Entropy.CalculateEntropy | app.py:116-119 | the estimate is 0 exactly for the empty password |
| Entropy.EntropyBounds | app.py:116-119 | a non-empty password scores between its length and length × bit length of its length |
| Entropy.EntropyOfRepetition | app.py:116-119 | repeating a password doubles its estimate |
| Entropy.EntropyGrowsWithLength | app.py:116-119 | for a fixed number of distinct characters, the estimate does not decrease with length |
| Entropy.EntropyGrowsWithVariety | app.py:116-119 | for a fixed length, the estimate does not decrease with the number of distinct characters |
| Entropy.EntropyOfOneCharacter | app.py:116-119 | a password that repeats one character scores one bit per character |
| Entropy.DistinctOfAllDifferent | app.py:117 | a password without repeated characters has as many distinct characters as it is long |
| Entropy.EntropyOfAllDifferent | app.py:116-119 | without repeated characters the estimate equals length × bit length of the length, the upper bound |
| Entropy.EntropyOfFourDifferent | app.py:116-119 | `"abcd"` scores 12: four distinct characters need three bits each |
| Breach.SplitDigest | app.py:106-107 | prefix and suffix concatenate back to the digest; the prefix has 5 characters, or the whole digest when it is shorter |
| Breach.UpperDigest | app.py:105 | `hexdigest().upper()` is the digest upper-cased character by character; for a well-formed lower-case hex digest the result is upper-case hex and lower-casing it gives back the digest |
| Breach.RangeUrl | app.py:109 | the request address is the range endpoint followed by exactly the prefix |
| Breach.CheckBreach | app.py:104-114 | the result is true exactly when the suffix of the upper-cased digest occurs in the answer to the range request for its prefix |
| Breach.DigestSplitsFiveAndThirtyFive | app.py:105-107 | a 40-character hex digest gives a 5-character prefix and a 35-character upper-case hex suffix |
| Breach.SuffixNeverSent | app.py:105-110 | the request address never contains the 35-character suffix, so only the prefix leaves the program |
| Breach.RequestDependsOnlyOnPrefix | app.py:105-110 | passwords whose digests share the first five characters produce the same request |
| Breach.ListedSuffixIsBreached | app.py:112-113 | an answer containing the suffix reports the password as breached |
| Breach.EmptyAnswerIsSafe | app.py:112-114 | an empty answer reports a well-formed digest as safe |
| Expiry.Advise | app.py:121-127 | twelve months exactly for score ≥ 4, six exactly for score 3, three exactly for score < 3 |
| Expiry.PasswordExpiry | app.py:121-127 | the message is the catalogue's `password_expiry_12_months` text for score ≥ 4, `password_expiry_6_months` for 3 and `password_expiry_3_months` otherwise, in the requested language; the lookup fails as `get_translation` does when the language or key is missing |
| Expiry.PasswordExpiryDefined | app.py:121-127 | with all three messages present for the language, the advice always yields the text stored under the key of its period |
| Expiry.ExpiryKeysDiffer | app.py:123-127 | the three catalogue keys are pairwise different |
| Expiry.RotationMonotone | app.py:121-127 | a higher score never gives a shorter rotation period |
| Expiry.RotationOfScores | app.py:121-127 | scores 0–2 give 3 months, 3 gives 6, and 4 and 5 give 12 |
| Expiry.StrongPasswordKeptTwelveMonths | app.py:121-123 | a password passing all five scored checks is advised a twelve-month period, even when it contains a denylisted word |
| Expiry.EmptyPasswordKeptThreeMonths | app.py:125-127 | the empty password is advised a three-month period |
| Generator.GeneratePassword | app.py:129-131 | the result has `length` characters (none for a negative length), and character k is the alphabet character at the k-th draw |
| Generator.AlphabetSize | app.py:130 | the alphabet has 73 characters |
| Generator.AlphabetIsScored | app.py:130 | every alphabet character is upper-case, lower-case, a digit or one of the scorer's special characters |
| Generator.GeneratedCharactersAreScored | app.py:129-131 | every character of a generated password belongs to a class the scorer rewards |
| Generator.GeneratedEntropyAtMostSevenBitsPerCharacter | app.py:129-131 | a generated password uses at most the 73 alphabet characters, so its entropy estimate is at most 7 bits per character |

## Left out

- The Streamlit user interface (`app.py:66`, `app.py:133-173`) is presentation and is not modelled. This includes the random security tip it shows.
- The text of the translation table (`app.py:8-59`) is not modelled. It is data of the presentation layer, so `Translation.GetTranslation` is a lookup in a table supplied by the caller.
- The exact feedback strings are not modelled. A message is the failed check plus the language; English or French is chosen the way the source chooses it.
- Breach.CheckBreach: SHA-1, UTF-8 encoding and the HTTP request (`app.py:105`, `app.py:110`) are function parameters, because hashing and network I/O are outside the model. Network failures are therefore not modelled; the source does not handle them either.
- Generator.GeneratePassword: the default argument `length=16` (`app.py:129`) is not modelled; the only call (`app.py:168`) passes a length, so the model always takes one.
- Generator.GeneratePassword: `random.choice` is replaced by positions supplied by the caller. Uniformity and independence of the draws are not modelled.
- Text.ToLower, Text.ToUpper and Text.IsAsciiDigit model ASCII only: Python's Unicode case mapping in `lower()`/`upper()` and the non-ASCII digits matched by `\d` are not modelled, so case mapping leaves every non-ASCII character unchanged and no non-ASCII character counts as a digit. The ranges `[A-Z]` and `[a-z]` are code-point ranges in Python as well and are modelled exactly.
- Strength.CheckPasswordStrength: the five scored blocks of the source are one helper, `Strength.ApplyCheck`, called five times in the source's order. The list appends of the source become reassignments of a sequence.
