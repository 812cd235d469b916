/**
 * The password-strength rule: a candidate is strong when it has at least ten
 * characters and is not, verbatim, on the blocklist. There is no other rule
 * (no character classes, no similarity check).
 */
module Strength {

  /** Fewest characters a strong password may have. */
  const MinLength: nat := 10

  /**
   * `is_password_strong`. Length counts characters (Unicode scalar values,
   * as Python's `len` counts code points); membership is exact and
   * case-sensitive.
   */
  function IsStrong(password: string, blocklist: set<string>): (strong: bool)
    ensures |password| < MinLength ==> !strong
    ensures password in blocklist ==> !strong
    ensures |password| >= MinLength && password !in blocklist ==> strong
  {
    if |password| < MinLength then false
    else if password in blocklist then false
    else true
  }

  /** With an empty blocklist the rule is a pure length check. */
  lemma EmptyBlocklistIsLengthCheck(password: string)
    ensures IsStrong(password, {}) <==> |password| >= MinLength
  {
  }

  /**
   * Growing the blocklist can only turn a strong verdict into a weak one,
   * never the reverse.
   */
  lemma BlocklistAntitone(password: string, small: set<string>, large: set<string>)
    requires small <= large
    ensures IsStrong(password, large) ==> IsStrong(password, small)
    ensures !IsStrong(password, small) ==> !IsStrong(password, large)
  {
  }

  /**
   * Entries shorter than MinLength never decide a verdict: the length rule
   * already rejects every candidate they could match.
   */
  lemma ShortEntriesIrrelevant(password: string, blocklist: set<string>)
    ensures IsStrong(password, blocklist)
        == IsStrong(password, set w | w in blocklist && |w| >= MinLength)
  {
  }

  /** "password" (8 characters) is weak whatever the blocklist holds. */
  lemma WeakPasswordRejected(blocklist: set<string>)
    ensures !IsStrong("password", blocklist)
  {
  }

  /** "5TrongP@ssw0rd" (14 characters) is strong unless it is blocklisted. */
  lemma StrongPasswordAccepted(blocklist: set<string>)
    ensures IsStrong("5TrongP@ssw0rd", blocklist) <==> "5TrongP@ssw0rd" !in blocklist
  {
  }

  /** A blocklisted candidate is weak even when its length alone passes. */
  lemma BlocklistedTenCharsRejected(blocklist: set<string>)
    requires "1234567890" in blocklist
    ensures |"1234567890"| == MinLength
    ensures !IsStrong("1234567890", blocklist)
  {
  }
}
