/**
  The email-verification service: six-digit codes that live fifteen minutes,
  stored on the account before the mail goes out, and consumed by one
  successful verification.
  The random draw, the clock and the mail transport are inputs.
 */
module EmailVerification {
  import opened Wrappers
  import opened PhpText
  import opened UserEntity

  /** How long an issued code stays valid: fifteen minutes. */
  const CODE_LIFETIME := 15 * 60

  /** What `random_int(0, 999999)` can return. */
  type Draw = n: int | 0 <= n <= 999999

  /** The mail that carries a code. */
  datatype Mail = Mail(to: string, code: string, expiresAt: Timestamp)

  /** `generateVerificationCode`: the draw written in decimal and left-padded with '0' to six characters. */
  function GenerateVerificationCode(n: Draw): (code: string)
    ensures |code| == 6 && AllDigits(code)
    ensures ParseDigits(code) == n
  {
    var digits := NatToString(n);
    NatToStringFits(n, 6);
    ParseNatToString(n);
    ParseLeadingZeros(6 - |digits|, digits);
    PadLeft(digits, 6, '0')
  }

  /** Codes are not random strings but an encoding: different draws give different codes. */
  lemma DistinctDrawsGiveDistinctCodes(a: Draw, b: Draw)
    ensures GenerateVerificationCode(a) == GenerateVerificationCode(b) <==> a == b
  {
  }

  /** The account after a code has been issued to it at `now`. */
  function IssueCode(u: User, code: string, now: Timestamp): (r: User)
    ensures r.verificationCode == Some(code)
    ensures r.verificationCodeExpiresAt == Some(now + CODE_LIFETIME)
    ensures SameProfile(u, r) && r.isVerified == u.isVerified
  {
    u.(verificationCode := Some(code), verificationCodeExpiresAt := Some(now + CODE_LIFETIME))
  }

  /** Outcome of issuing a code: the store as flushed, and the mail if the transport accepted it. */
  datatype SendResult = SendResult(store: Store, mail: Option<Mail>)

  /**
    `sendEmailConfirmation`: stores a fresh code with expiry `now + 15 min` and flushes
    BEFORE sending, so a transport failure (`delivered == false`) still leaves the code stored.
   */
  function SendEmailConfirmation(store: Store, email: string, draw: Draw, now: Timestamp, delivered: bool): (r: SendResult)
    requires email in store
    ensures r.store.Keys == store.Keys
    ensures r.store[email].verificationCode == Some(GenerateVerificationCode(draw))
    ensures r.store[email].verificationCodeExpiresAt == Some(now + CODE_LIFETIME)
    ensures SameProfile(store[email], r.store[email]) && r.store[email].isVerified == store[email].isVerified
    ensures forall e :: e in store && e != email ==> r.store[e] == store[e]
    ensures delivered <==> r.mail.Some?
    ensures delivered ==> r.mail.value == Mail(store[email].email, GenerateVerificationCode(draw), now + CODE_LIFETIME)
  {
    var code := GenerateVerificationCode(draw);
    var u := IssueCode(store[email], code, now);
    var flushed := store[email := u];
    SendResult(flushed, if delivered then Some(Mail(u.email, code, now + CODE_LIFETIME)) else None)
  }

  /** Whether the mail goes out has no effect on the stored state. */
  lemma MailFailureKeepsCode(store: Store, email: string, draw: Draw, now: Timestamp)
    requires email in store
    ensures SendEmailConfirmation(store, email, draw, now, false).store
         == SendEmailConfirmation(store, email, draw, now, true).store
  {
  }

  /** The account after a successful verification. */
  function MarkVerified(u: User): (r: User)
    ensures r.isVerified && r.verificationCode == None && r.verificationCodeExpiresAt == None
    ensures SameProfile(u, r)
  {
    u.(isVerified := true, verificationCode := None, verificationCodeExpiresAt := None)
  }

  datatype VerifyResult = VerifyResult(ok: bool, store: Store)

  /**
    `verifyUserEmailWithCode`: succeeds exactly when an account has this email, its stored code
    is this exact string (a null code matches nothing), and the code has not expired.
    A failure changes nothing; a success verifies the account and clears both code fields.
   */
  function VerifyUserEmailWithCode(store: Store, email: string, code: string, now: Timestamp): (r: VerifyResult)
    ensures r.ok <==> email in store && store[email].verificationCode == Some(code)
                      && !IsVerificationCodeExpired(store[email], now)
    ensures !r.ok ==> r.store == store
    ensures r.ok ==> r.store.Keys == store.Keys
                     && r.store[email].isVerified
                     && r.store[email].verificationCode == None
                     && r.store[email].verificationCodeExpiresAt == None
                     && SameProfile(store[email], r.store[email])
                     && forall e :: e in store && e != email ==> r.store[e] == store[e]
  {
    if email !in store then VerifyResult(false, store)
    else
      var u := store[email];
      if u.verificationCode != Some(code) then VerifyResult(false, store)
      else if IsVerificationCodeExpired(u, now) then VerifyResult(false, store)
      else VerifyResult(true, store[email := MarkVerified(u)])
  }

  /** `resendVerificationCode`: issues a new code, overwriting whatever code was pending. */
  function ResendVerificationCode(store: Store, email: string, draw: Draw, now: Timestamp, delivered: bool): (r: SendResult)
    requires email in store
    ensures r.store.Keys == store.Keys
    ensures r.store[email].verificationCode == Some(GenerateVerificationCode(draw))
    ensures r.store[email].verificationCodeExpiresAt == Some(now + CODE_LIFETIME)
    ensures SameProfile(store[email], r.store[email]) && r.store[email].isVerified == store[email].isVerified
    ensures forall e :: e in store && e != email ==> r.store[e] == store[e]
  {
    SendEmailConfirmation(store, email, draw, now, delivered)
  }

  // ---------------------------------------------------------------------------
  // Lifecycle properties
  // ---------------------------------------------------------------------------

  /** A code verifies at most once: after a success no code verifies that account again. */
  lemma VerifiesAtMostOnce(store: Store, email: string, code: string, now: Timestamp,
                           code': string, later: Timestamp)
    requires VerifyUserEmailWithCode(store, email, code, now).ok
    ensures !VerifyUserEmailWithCode(VerifyUserEmailWithCode(store, email, code, now).store, email, code', later).ok
  {
  }

  /** The code just sent verifies the account at any instant up to its expiry. */
  lemma SentCodeVerifies(store: Store, email: string, draw: Draw, now: Timestamp, delivered: bool, at: Timestamp)
    requires email in store
    requires at <= now + CODE_LIFETIME
    ensures VerifyUserEmailWithCode(SendEmailConfirmation(store, email, draw, now, delivered).store,
                                    email, GenerateVerificationCode(draw), at).ok
  {
  }

  /** Once a new code is sent, the previous code (if different) no longer verifies. */
  lemma ResendRetiresOldCode(store: Store, email: string, draw: Draw, now: Timestamp, delivered: bool,
                             previous: string, at: Timestamp)
    requires email in store
    requires previous != GenerateVerificationCode(draw)
    ensures !VerifyUserEmailWithCode(ResendVerificationCode(store, email, draw, now, delivered).store,
                                     email, previous, at).ok
  {
  }

  /** Replacing one account by a consistent record with the same email keeps both store invariants. */
  lemma ReplacePreservesInvariants(store: Store, email: string, u: User)
    requires WellFormed(store) && AllCodeStatesConsistent(store)
    requires u.email == email && CodeStateConsistent(u)
    ensures WellFormed(store[email := u]) && AllCodeStatesConsistent(store[email := u])
  {
  }

  /** Issuing a code keeps every account filed under its email and every code paired with an expiry. */
  lemma SendPreservesInvariants(store: Store, email: string, draw: Draw, now: Timestamp, delivered: bool)
    requires WellFormed(store) && AllCodeStatesConsistent(store) && email in store
    ensures WellFormed(SendEmailConfirmation(store, email, draw, now, delivered).store)
    ensures AllCodeStatesConsistent(SendEmailConfirmation(store, email, draw, now, delivered).store)
  {
    var u := IssueCode(store[email], GenerateVerificationCode(draw), now);
    ReplacePreservesInvariants(store, email, u);
    assert SendEmailConfirmation(store, email, draw, now, delivered).store == store[email := u];
  }

  /** Verifying keeps every account filed under its email and every code paired with an expiry. */
  lemma VerifyPreservesInvariants(store: Store, email: string, code: string, now: Timestamp)
    requires WellFormed(store) && AllCodeStatesConsistent(store)
    ensures WellFormed(VerifyUserEmailWithCode(store, email, code, now).store)
    ensures AllCodeStatesConsistent(VerifyUserEmailWithCode(store, email, code, now).store)
  {
    var v := VerifyUserEmailWithCode(store, email, code, now);
    if v.ok {
      ReplacePreservesInvariants(store, email, MarkVerified(store[email]));
      assert v.store == store[email := MarkVerified(store[email])];
    }
  }
}
