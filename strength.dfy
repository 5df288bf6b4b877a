/** The strength scorer: five scored rule checks, each worth one point when it
    passes and one feedback message when it fails, followed by a denylist check
    that only adds an advisory message. */
module Strength {
  import opened Text
  import opened Translation

  /** The rule checks. `CommonPattern` is the denylist check; it is never scored. */
  datatype Check = MinLength | Uppercase | Lowercase | Digit | Special | CommonPattern

  /** A feedback message: the failed check's text in the selected language. */
  datatype Message = Message(check: Check, lang: Lang)

  const MinimumLength: nat := 12

  /** The members of the character class `[!@#$%^&*(),.?":{}|<>]`. */
  const SpecialChars: string := "!@#$%^&*(),.?\":{}|<>"

  /** The denylisted substrings, looked for in the lower-cased password. */
  const CommonPasswords: seq<string> := ["password", "12345", "qwerty"]

  /** Every check, in the order the scorer runs them. */
  const AllChecks: seq<Check> := [MinLength, Uppercase, Lowercase, Digit, Special, CommonPattern]

  /** The first five checks are the scored ones. */
  const ScoredCount: nat := 5

  predicate IsSpecial(c: char) { c in SpecialChars }

  predicate HasUpper(p: string) { exists i :: 0 <= i < |p| && IsAsciiUpper(p[i]) }

  predicate HasLower(p: string) { exists i :: 0 <= i < |p| && IsAsciiLower(p[i]) }

  predicate HasDigit(p: string) { exists i :: 0 <= i < |p| && IsAsciiDigit(p[i]) }

  predicate HasSpecial(p: string) { exists i :: 0 <= i < |p| && IsSpecial(p[i]) }

  /** Some denylisted word occurs in the lower-cased password. */
  predicate IsCommon(p: string)
  {
    exists j :: 0 <= j < |CommonPasswords| && Contains(ToLower(p), CommonPasswords[j])
  }

  /** Whether password `p` passes check `c`; the denylist check passes when no
      denylisted word occurs. */
  predicate Passes(c: Check, p: string)
  {
    match c
    case MinLength => |p| >= MinimumLength
    case Uppercase => HasUpper(p)
    case Lowercase => HasLower(p)
    case Digit => HasDigit(p)
    case Special => HasSpecial(p)
    case CommonPattern => !IsCommon(p)
  }

  /** Position of a check in the order the scorer runs them. */
  function Rank(c: Check): nat
  {
    match c
    case MinLength => 0
    case Uppercase => 1
    case Lowercase => 2
    case Digit => 3
    case Special => 4
    case CommonPattern => 5
  }

  predicate InCheckOrder(cs: seq<Check>)
  {
    forall i, j :: 0 <= i < j < |cs| ==> Rank(cs[i]) < Rank(cs[j])
  }

  function Indicator(b: bool): nat { if b then 1 else 0 }

  /** How many of the first `n` checks of `cs` the password passes. */
  function PassedCount(cs: seq<Check>, n: nat, p: string): nat
    requires n <= |cs|
  {
    if n == 0 then 0 else PassedCount(cs, n - 1, p) + Indicator(Passes(cs[n - 1], p))
  }

  /** The report of a single check: the check itself when the password fails it. */
  function Report(c: Check, p: string): seq<Check>
  {
    if Passes(c, p) then [] else [c]
  }

  /** The checks among the first `n` of `cs` that the password fails, in order. */
  function Failed(cs: seq<Check>, n: nat, p: string): seq<Check>
    requires n <= |cs|
  {
    if n == 0 then [] else Failed(cs, n - 1, p) + Report(cs[n - 1], p)
  }

  /** Reference definition of the score: the number of scored checks passed. */
  function Score(p: string): nat
  {
    PassedCount(AllChecks, ScoredCount, p)
  }

  /** Reference definition of the feedback: every failed check, in check order. */
  function FeedbackChecks(p: string): seq<Check>
  {
    Failed(AllChecks, |AllChecks|, p)
  }

  /** Attaches the selected language to each reported check. */
  function Localize(cs: seq<Check>, lang: Lang): (ms: seq<Message>)
    ensures |ms| == |cs|
    ensures forall i :: 0 <= i < |cs| ==> ms[i] == Message(cs[i], lang)
  {
    seq(|cs|, i requires 0 <= i < |cs| => Message(cs[i], lang))
  }

  /** One rule check of the scorer, the `if ...: score += 1 else: feedback.append(...)`
      block the source repeats for each scored check. */
  method ApplyCheck(k: nat, c: Check, passed: bool, password: string, lang: Lang, score: int, feedback: seq<Message>)
    returns (score': int, feedback': seq<Message>)
    requires k < ScoredCount && AllChecks[k] == c
    requires passed == Passes(c, password)
    requires score == PassedCount(AllChecks, k, password)
    requires feedback == Localize(Failed(AllChecks, k, password), lang)
    ensures score' == PassedCount(AllChecks, k + 1, password)
    ensures feedback' == Localize(Failed(AllChecks, k + 1, password), lang)
  {
    if passed {
      score' := score + 1;
      feedback' := feedback;
    } else {
      score' := score;
      feedback' := feedback + [Message(c, lang)];
    }
  }

  /** The denylist block: the advisory message is appended when a denylisted
      word occurs, and the score is left alone. */
  method ApplyDenylist(common: bool, password: string, lang: Lang, feedback: seq<Message>)
    returns (feedback': seq<Message>)
    requires common == IsCommon(password)
    requires feedback == Localize(Failed(AllChecks, ScoredCount, password), lang)
    ensures feedback' == Localize(FeedbackChecks(password), lang)
  {
    if common {
      feedback' := feedback + [Message(CommonPattern, lang)];
    } else {
      feedback' := feedback;
    }
    assert |AllChecks| == 6;
  }

  /** `any(common in lowered for common in common_passwords)`: the denylist
      words are tried in order until one occurs. */
  method ContainsCommonWord(lowered: string) returns (common: bool)
    ensures common <==> exists j :: 0 <= j < |CommonPasswords| && Contains(lowered, CommonPasswords[j])
  {
    common := false;
    var k := 0;
    while k < |CommonPasswords| && !common
      invariant 0 <= k <= |CommonPasswords|
      invariant common <==> exists j :: 0 <= j < k && Contains(lowered, CommonPasswords[j])
    {
      common := Contains(lowered, CommonPasswords[k]);
      k := k + 1;
    }
  }

  /** `check_password_strength`: the five scored checks in order, then the
      denylist check, accumulating the score and the feedback list. */
  method CheckPasswordStrength(password: string, langCode: string) returns (score: int, feedback: seq<Message>)
    ensures score == Score(password)
    ensures feedback == Localize(FeedbackChecks(password), FeedbackLang(langCode))
  {
    var lang := FeedbackLang(langCode);
    score := 0;
    feedback := [];

    score, feedback := ApplyCheck(0, MinLength, |password| >= MinimumLength, password, lang, score, feedback);
    score, feedback := ApplyCheck(1, Uppercase, HasUpper(password), password, lang, score, feedback);
    score, feedback := ApplyCheck(2, Lowercase, HasLower(password), password, lang, score, feedback);
    score, feedback := ApplyCheck(3, Digit, HasDigit(password), password, lang, score, feedback);
    score, feedback := ApplyCheck(4, Special, HasSpecial(password), password, lang, score, feedback);

    var common := ContainsCommonWord(ToLower(password));
    feedback := ApplyDenylist(common, password, lang, feedback);
  }

  // ---------------------------------------------------------------------------
  // Lemmas about the reference definitions

  /** Every check either passes or fails: of the first `n` checks, the passed
      and the failed ones add up to `n`. */
  lemma {:induction false} PassedPlusFailed(cs: seq<Check>, n: nat, p: string)
    requires n <= |cs|
    ensures PassedCount(cs, n, p) + |Failed(cs, n, p)| == n
  {
    if n > 0 {
      PassedPlusFailed(cs, n - 1, p);
    }
  }

  /** A check is reported exactly when it is among the first `n` and the password fails it. */
  lemma {:induction false} FailedMembers(cs: seq<Check>, n: nat, p: string, c: Check)
    requires n <= |cs|
    ensures c in Failed(cs, n, p) <==> (exists k :: 0 <= k < n && cs[k] == c) && !Passes(c, p)
  {
    if n > 0 {
      FailedMembers(cs, n - 1, p, c);
    }
  }

  /** Reporting keeps the check order. */
  lemma {:induction false} FailedKeepsOrder(cs: seq<Check>, n: nat, p: string)
    requires n <= |cs|
    requires InCheckOrder(cs)
    ensures InCheckOrder(Failed(cs, n, p))
  {
    if n > 0 {
      FailedKeepsOrder(cs, n - 1, p);
      var before := Failed(cs, n - 1, p);
      var fs := Failed(cs, n, p);
      if !Passes(cs[n - 1], p) {
        forall i, j | 0 <= i < j < |fs| ensures Rank(fs[i]) < Rank(fs[j]) {
          if j == |before| {
            assert fs[i] in before;
            FailedMembers(cs, n - 1, p, fs[i]);
          }
        }
      }
    }
  }

  /** The score counts the checks passed among length >= 12, an upper-case
      letter, a lower-case letter, a digit and a special character, in that order. */
  lemma ScoreCountsPassedChecks(p: string)
    ensures Score(p)
         == Indicator(Passes(MinLength, p)) + Indicator(Passes(Uppercase, p))
          + Indicator(Passes(Lowercase, p)) + Indicator(Passes(Digit, p))
          + Indicator(Passes(Special, p))
  {
    assert PassedCount(AllChecks, 1, p) == Indicator(Passes(MinLength, p));
    assert PassedCount(AllChecks, 2, p) == PassedCount(AllChecks, 1, p) + Indicator(Passes(Uppercase, p));
    assert PassedCount(AllChecks, 3, p) == PassedCount(AllChecks, 2, p) + Indicator(Passes(Lowercase, p));
    assert PassedCount(AllChecks, 4, p) == PassedCount(AllChecks, 3, p) + Indicator(Passes(Digit, p));
    assert PassedCount(AllChecks, 5, p) == PassedCount(AllChecks, 4, p) + Indicator(Passes(Special, p));
  }

  /** The reported checks are the failed scored checks in check order, followed
      by the denylist check exactly when a denylisted word occurs. */
  lemma FeedbackIsFailedChecks(p: string)
    ensures FeedbackChecks(p)
         == Report(MinLength, p) + Report(Uppercase, p) + Report(Lowercase, p)
          + Report(Digit, p) + Report(Special, p) + Report(CommonPattern, p)
  {
    assert Failed(AllChecks, 1, p) == [] + Report(MinLength, p);
    assert [] + Report(MinLength, p) == Report(MinLength, p);
    assert Failed(AllChecks, 2, p) == Failed(AllChecks, 1, p) + Report(Uppercase, p);
    assert Failed(AllChecks, 3, p) == Failed(AllChecks, 2, p) + Report(Lowercase, p);
    assert Failed(AllChecks, 4, p) == Failed(AllChecks, 3, p) + Report(Digit, p);
    assert Failed(AllChecks, 5, p) == Failed(AllChecks, 4, p) + Report(Special, p);
    assert Failed(AllChecks, 6, p) == Failed(AllChecks, 5, p) + Report(CommonPattern, p);
  }

  /** The score lies in [0, 5], and there are 5 - score failure messages plus
      one exactly when the denylist matched, so never more than six. */
  lemma ScoreAndFeedbackSizes(p: string)
    ensures 0 <= Score(p) <= 5
    ensures |FeedbackChecks(p)| == 5 - Score(p) + Indicator(IsCommon(p))
    ensures |FeedbackChecks(p)| <= 6
  {
    PassedPlusFailed(AllChecks, ScoredCount, p);
  }

  /** Feedback lists the failed checks in the order the scorer runs them. */
  lemma FeedbackInCheckOrder(p: string)
    ensures InCheckOrder(FeedbackChecks(p))
  {
    assert InCheckOrder(AllChecks) by {
      forall i, j | 0 <= i < j < |AllChecks| ensures Rank(AllChecks[i]) < Rank(AllChecks[j]) {
      }
    }
    FailedKeepsOrder(AllChecks, |AllChecks|, p);
  }

  /** The advisory message is present exactly when the denylist matched, and
      then it is the last message; no failed-check message is advisory. */
  lemma AdvisoryComesLast(p: string)
    ensures CommonPattern in FeedbackChecks(p) <==> IsCommon(p)
    ensures IsCommon(p) ==> FeedbackChecks(p)[|FeedbackChecks(p)| - 1] == CommonPattern
    ensures forall i :: 0 <= i < |FeedbackChecks(p)| - 1 ==> FeedbackChecks(p)[i] != CommonPattern
  {
    var scored := Failed(AllChecks, ScoredCount, p);
    assert FeedbackChecks(p) == scored + Report(CommonPattern, p);
    FailedMembers(AllChecks, ScoredCount, p, CommonPattern);
    assert CommonPattern !in scored;
  }

  /** The empty password scores 0 and gets the five failure messages in the
      order length, upper-case, lower-case, digit, special character. */
  lemma EmptyPasswordFailsEveryCheck()
    ensures Score("") == 0
    ensures FeedbackChecks("") == [MinLength, Uppercase, Lowercase, Digit, Special]
  {
    ScoreCountsPassedChecks("");
    FeedbackIsFailedChecks("");
    assert !IsCommon("") by {
      forall j | 0 <= j < |CommonPasswords| ensures !Contains(ToLower(""), CommonPasswords[j]) {
        assert |CommonPasswords[j]| > 0;
      }
    }
  }

  /** A password of at least 12 characters with every character class and no
      denylisted word scores 5 with no feedback. */
  lemma StrongPasswordPassesEveryCheck(p: string)
    requires |p| >= MinimumLength && HasUpper(p) && HasLower(p) && HasDigit(p) && HasSpecial(p)
    requires !IsCommon(p)
    ensures Score(p) == 5
    ensures FeedbackChecks(p) == []
  {
    ScoreCountsPassedChecks(p);
    FeedbackIsFailedChecks(p);
  }

  /** The converse: a password gets the full score exactly when it passes all
      five scored checks, and no feedback at all exactly when it also avoids
      the denylist. */
  lemma FullMarksIffStrong(p: string)
    ensures Score(p) == 5 <==> |p| >= MinimumLength && HasUpper(p) && HasLower(p) && HasDigit(p) && HasSpecial(p)
    ensures FeedbackChecks(p) == [] <==> Score(p) == 5 && !IsCommon(p)
  {
    ScoreCountsPassedChecks(p);
    ScoreAndFeedbackSizes(p);
  }

  /** "Password1!" contains "password" once lower-cased, so it draws the
      advisory message whatever its score. */
  lemma CapitalisedPasswordIsDenylisted()
    ensures IsCommon("Password1!")
    ensures CommonPattern in FeedbackChecks("Password1!")
  {
    var lowered := ToLower("Password1!");
    assert lowered[..8] == "password";
    assert OccursAt(lowered, CommonPasswords[0], 0);
    ContainsIffOccurs(lowered, CommonPasswords[0]);
    AdvisoryComesLast("Password1!");
  }
}
