/**
 * The Express `auth` routes: `forgot-password` stores a reset token, `reset-password`
 * consumes it. `sign` and `verify` stand for `jwt.sign` / `jwt.verify` of the reset
 * token: `sign(id, now)` signs a token for `id` at `now`, and `verify` yields its claims,
 * or `None` when the signature or format is bad. `hash` stands for `bcrypt.hash`.
 */
module AuthRoutes {
  import opened Common
  import opened HttpErrors
  import opened UserModel
  import opened Repositories
  import opened ResetToken

  const InvalidToken: HttpError := HttpError(400, "Invalid or expired token")

  /**
   * What a route does with a request: it sends `reply`, or its handler's promise
   * rejects before any reply is sent.
   */
  datatype Outcome = Replied(reply: Result<(), HttpError>) | Unanswered

  /**
   * `forgot-password`: 404 with nothing stored for an unknown email; otherwise the user
   * with that email gets the signed token and an expiry 3600000 ms after `now`, and only
   * then is the mail sent. `mailSent` is whether `sendEmail` resolves: the route does not
   * catch its failure, so then it never replies, and the token stays stored.
   */
  method ForgotPassword(users: UserRepository, email: string, sign: (Id, Time) -> string,
                        mailSent: bool, now: Time)
    returns (r: Outcome)
    requires users.Valid()
    modifies users
    ensures users.Valid() && users.nextId == old(users.nextId)
    ensures !EmailTaken(old(users.users), email) ==>
      r == Replied(Failure(HttpError(404, "User not found"))) && users.users == old(users.users)
    ensures EmailTaken(old(users.users), email) ==>
      && r == (if mailSent then Replied(Success(())) else Unanswered)
      && exists id :: id in old(users.users) && old(users.users)[id].email == email
                      && users.users == old(users.users)[id := Issue(old(users.users)[id], sign(id, now), now)]
  {
    var found := users.FindByEmail(email);
    if found.None? {
      return Replied(Failure(HttpError(404, "User not found")));
    }
    var id := found.value;
    var user := users.users[id];
    var token := sign(id, now);
    user := user.(resetToken := Some(token));
    user := user.(resetTokenExpire := Some(now + ResetTokenLifetime));
    users.Update(user);
    if !mailSent {
      return Unanswered;
    }
    r := Replied(Success(()));
  }

  /**
   * `reset-password/:token`: succeeds only when the token verifies, its signed expiry has
   * not been reached, and its `id` claim names a user whose stored token is this one and
   * whose stored expiry is not before `now`; then the hash
   * of the new password is stored and token and expiry are cleared. Every failure is
   * the same 400 and changes nothing.
   */
  method ResetPassword(users: UserRepository, token: string, newPassword: string,
                       verify: string -> Option<Claims>, hash: string -> string, now: Time)
    returns (r: Result<(), HttpError>)
    requires users.Valid()
    modifies users
    ensures users.Valid() && users.nextId == old(users.nextId)
    ensures if && verify(token).Some? && JwtLiveJs(verify(token).value, now)
               && verify(token).value.id.Some? && verify(token).value.id.value in old(users.users)
               && AcceptsJs(old(users.users)[verify(token).value.id.value], token, now) then
        && r == Success(())
        && users.users == old(users.users)[verify(token).value.id.value :=
                                           Consume(old(users.users)[verify(token).value.id.value], hash(newPassword))]
      else
        r == Failure(InvalidToken) && users.users == old(users.users)
  {
    var decoded := verify(token);
    if decoded.None? || now >= decoded.value.expiresAt {
      return Failure(InvalidToken);
    }
    var id := decoded.value.id;
    if id.None? || id.value !in users.users || users.users[id.value].resetToken != Some(token) {
      return Failure(InvalidToken);
    }
    var user := users.users[id.value];
    if ExpiryAsNumber(user.resetTokenExpire) < now {
      return Failure(InvalidToken);
    }
    var hashedPassword := hash(newPassword);
    user := user.(password := hashedPassword);
    user := user.(resetToken := None);
    user := user.(resetTokenExpire := None);
    users.Update(user);
    r := Success(());
  }

}
