/**
 * The password-reset token life cycle shared by the Spring `UserService` and the
 * Express `auth` routes: a token is stored with an expiry one hour ahead, checked,
 * and cleared when it is used.
 */
module ResetToken {
  import opened Common
  import opened UserModel

  /**
   * The payload of a signed reset token as the verifier reads it: the `id` claim, if
   * present, and the signed expiry. Both backends sign `id` and an expiry ten minutes
   * after the issue time.
   */
  datatype Claims = Claims(id: Option<Id>, expiresAt: Time)

  /** The claims of a reset token signed for `id` at `issuedAt`. */
  function IssuedClaims(id: Id, issuedAt: Time): (c: Claims)
    ensures c.id == Some(id) && c.expiresAt == issuedAt + ResetJwtLifetime
  {
    Claims(Some(id), issuedAt + ResetJwtLifetime)
  }

  /** The Java JWT parser refuses a token once `now` is after its expiry. */
  predicate JwtLiveJava(c: Claims, now: Time) {
    !(now > c.expiresAt)
  }

  /** `jwt.verify` refuses a token once `now` has reached its expiry. */
  predicate JwtLiveJs(c: Claims, now: Time) {
    now < c.expiresAt
  }

  /** Store `token` with an expiry one hour after `now` (`forgot-password`, `initiatePasswordReset`). */
  function Issue(u: User, token: string, now: Time): (r: User)
    ensures r.resetToken == Some(token) && r.resetTokenExpire == Some(now + ResetTokenLifetime)
    ensures r.(resetToken := u.resetToken, resetTokenExpire := u.resetTokenExpire) == u
  {
    u.(resetToken := Some(token), resetTokenExpire := Some(now + ResetTokenLifetime))
  }

  /**
   * The Spring check: the stored token is present and equal to the supplied one, and the
   * expiry is present and not before `now` (an expiry equal to `now` still passes).
   */
  predicate Accepts(u: User, token: string, now: Time) {
    u.resetToken == Some(token) && u.resetTokenExpire.Some? && !(u.resetTokenExpire.value < now)
  }

  /**
   * How JavaScript's `<` reads a stored expiry: a `null` one, as a reset leaves it,
   * compares as 0. A path that was never set reads as `undefined`, and `undefined < now`
   * is false, so such an expiry would pass at any time; `None` does not model that
   * case. It can arise only on a record with a token but no expiry, and `PairedPreserved`
   * shows the operations never produce one.
   */
  function ExpiryAsNumber(e: Option<Time>): int {
    if e.Some? then e.value else 0
  }

  /**
   * The Express check: a user whose stored token equals the supplied one and whose
   * expiry is not before `now`.
   */
  predicate AcceptsJs(u: User, token: string, now: Time) {
    u.resetToken == Some(token) && !(ExpiryAsNumber(u.resetTokenExpire) < now)
  }

  /** A successful reset: the new password hash is stored and the token and expiry are cleared. */
  function Consume(u: User, newHash: string): (r: User)
    ensures r.password == newHash && r.resetToken == None && r.resetTokenExpire == None
    ensures r.(password := u.password, resetToken := u.resetToken, resetTokenExpire := u.resetTokenExpire) == u
  {
    u.(password := newHash, resetToken := None, resetTokenExpire := None)
  }

  /** Token and expiry are set and cleared together. */
  predicate Paired(u: User) {
    u.resetToken.Some? <==> u.resetTokenExpire.Some?
  }

  /** A freshly issued token is accepted for exactly that token, up to and including its expiry. */
  lemma IssuedTokenAccepted(u: User, token: string, issuedAt: Time, supplied: string, now: Time)
    ensures Accepts(Issue(u, token, issuedAt), supplied, now)
            <==> (supplied == token && now <= issuedAt + ResetTokenLifetime)
  {
  }

  /**
   * For a token signed at issue time, the signed ten-minute expiry, not the stored
   * one-hour one, decides the Spring reset: it passes exactly for that token and up to
   * and including ten minutes after issue.
   */
  lemma SpringResetWindow(u: User, id: Id, token: string, issuedAt: Time, supplied: string, now: Time)
    ensures (JwtLiveJava(IssuedClaims(id, issuedAt), now) && Accepts(Issue(u, token, issuedAt), supplied, now))
            <==> (supplied == token && now <= issuedAt + ResetJwtLifetime)
  {
  }

  /**
   * The same for the Express reset, where `jwt.verify` already refuses at the expiry
   * instant: it passes exactly for that token and strictly within ten minutes of issue.
   */
  lemma ExpressResetWindow(u: User, id: Id, token: string, issuedAt: Time, supplied: string, now: Time)
    ensures (JwtLiveJs(IssuedClaims(id, issuedAt), now) && AcceptsJs(Issue(u, token, issuedAt), supplied, now))
            <==> (supplied == token && now < issuedAt + ResetJwtLifetime)
  {
  }

  /** A token works once: after a reset no token at all is accepted, by either backend. */
  lemma SingleUse(u: User, newHash: string, token: string, now: Time)
    ensures !Accepts(Consume(u, newHash), token, now)
    ensures !AcceptsJs(Consume(u, newHash), token, now)
  {
  }

  /** Issuing a new token revokes the earlier one. */
  lemma ReissueRevokes(u: User, earlier: string, later: string, issuedAt: Time, now: Time)
    requires earlier != later
    ensures !Accepts(Issue(u, later, issuedAt), earlier, now)
    ensures !AcceptsJs(Issue(u, later, issuedAt), earlier, now)
  {
  }

  /** Issuing, consuming and the profile patch all keep token and expiry paired. */
  lemma PairedPreserved(u: User, token: string, now: Time, newHash: string,
                        name: Option<string>, email: Option<string>, phoneNo: Option<string>)
    requires Paired(u)
    ensures Paired(Issue(u, token, now))
    ensures Paired(Consume(u, newHash))
    ensures Paired(PatchUser(u, name, email, phoneNo))
  {
  }

  /** On records where token and expiry are paired, the two backends accept the same resets. */
  lemma BackendsAgreeOnPaired(u: User, token: string, now: Time)
    requires Paired(u)
    ensures AcceptsJs(u, token, now) <==> Accepts(u, token, now)
  {
  }

  /**
   * Off the paired records they differ: a stored token with a `null` expiry is refused by
   * the Spring check but accepted by the Express one whenever `now` is not after time 0.
   */
  lemma BackendsDifferOnNullExpiry(u: User, token: string, now: Time)
    requires u.resetToken == Some(token) && u.resetTokenExpire.None? && now <= 0
    ensures AcceptsJs(u, token, now) && !Accepts(u, token, now)
  {
  }
}
