/**
 * The Spring `UserService`: registration, login, profile update, deletion and the
 * password-reset token. The password encoder, the token provider and mail delivery
 * are parameters: `encode`/`matches` stand for the `PasswordEncoder`, `generate` and
 * `decode` for the reset-token side of `JwtTokenProvider` (`generate(id, now)` signs a
 * token for `id` at `now`; `decode` yields its claims, or `None` when the JWT parser
 * rejects its signature or format), `mailDelivered` for whether the reset email went out.
 */
module UserService {
  import opened Common
  import opened ServiceErrors
  import opened UserModel
  import opened Repositories
  import opened ResetToken

  /**
   * The checks `registerUser` runs, in their order: the email must be unused (checked
   * first), the name 5 to 30 characters long, the password at least 8 characters long.
   */
  function RegisterError(emailTaken: bool, name: Option<string>, password: Option<string>)
    : (e: Option<ServiceError>)
    ensures e.None? <==> (!emailTaken && name.Some? && 5 <= |name.value| <= 30
                          && password.Some? && |password.value| >= 8)
    ensures emailTaken ==> e == Some(UserAlreadyExists)
    ensures !emailTaken && (name.None? || |name.value| < 5 || |name.value| > 30) ==> e == Some(NameLengthOutOfRange)
    ensures (!emailTaken && name.Some? && 5 <= |name.value| <= 30
             && (password.None? || |password.value| < 8)) ==> e == Some(PasswordTooShort)
  {
    if emailTaken then Some(UserAlreadyExists)
    else if name.None? || |name.value| < 5 || |name.value| > 30 then Some(NameLengthOutOfRange)
    else if password.None? || |password.value| < 8 then Some(PasswordTooShort)
    else None
  }

  /**
   * `registerUser`: on success one user is stored under a fresh id, holding the
   * encoder's output and not the plain password; on failure no user is created.
   */
  method RegisterUser(users: UserRepository, name: Option<string>, email: string, phoneNo: string,
                      password: Option<string>, encode: string -> string, now: Time)
    returns (r: Result<User, ServiceError>)
    requires users.Valid()
    modifies users
    ensures users.Valid()
    ensures var e := RegisterError(EmailTaken(old(users.users), email), name, password);
      if e.Some? then
        r == Failure(e.value) && users.users == old(users.users) && users.nextId == old(users.nextId)
      else
        && r.Success?
        && r.value == NewUser(name.value, email, phoneNo, encode(password.value), now)
                        .(id := Some(old(users.nextId)))
        && old(users.nextId) !in old(users.users)
        && users.users == old(users.users)[old(users.nextId) := r.value]
  {
    if EmailTaken(users.users, email) {
      return Failure(UserAlreadyExists);
    }
    if name.None? || |name.value| < 5 || |name.value| > 30 {
      return Failure(NameLengthOutOfRange);
    }
    if password.None? || |password.value| < 8 {
      return Failure(PasswordTooShort);
    }
    var hashedPassword := encode(password.value);
    var saved := users.Insert(NewUser(name.value, email, phoneNo, hashedPassword, now));
    r := Success(saved);
  }

  /**
   * `loginUser`: "User not found" exactly when no user has that email; otherwise a user
   * with that email whose stored hash matches the password, or "Invalid Password". It
   * changes nothing.
   */
  method LoginUser(users: UserRepository, email: string, password: string,
                   matches: (string, string) -> bool)
    returns (r: Result<User, ServiceError>)
    ensures r == Failure(UserNotFound) <==> !EmailTaken(users.users, email)
    ensures r.Success? ==> r.value in users.users.Values && r.value.email == email
                           && matches(password, r.value.password)
    ensures r == Failure(InvalidPassword) ==>
      exists id :: id in users.users && users.users[id].email == email
                   && !matches(password, users.users[id].password)
    ensures r.Success? || r == Failure(UserNotFound) || r == Failure(InvalidPassword)
  {
    var found := users.FindByEmail(email);
    if found.None? {
      return Failure(UserNotFound);
    }
    var user := users.users[found.value];
    if !matches(password, user.password) {
      return Failure(InvalidPassword);
    }
    r := Success(user);
  }

  /**
   * `updateUser`: "User not found" with no change, else the profile patch is applied to
   * that user alone and the new record returned.
   */
  method UpdateUser(users: UserRepository, userId: Id,
                    name: Option<string>, email: Option<string>, phoneNo: Option<string>)
    returns (r: Result<User, ServiceError>)
    requires users.Valid()
    modifies users
    ensures users.Valid() && users.nextId == old(users.nextId)
    ensures if userId !in old(users.users) then
        r == Failure(UserNotFound) && users.users == old(users.users)
      else
        && r == Success(PatchUser(old(users.users)[userId], name, email, phoneNo))
        && users.users == old(users.users)[userId := r.value]
  {
    if userId !in users.users {
      return Failure(UserNotFound);
    }
    var user := users.users[userId];
    if name.Some? && name.value != "" { user := user.(name := name.value); }
    if email.Some? && email.value != "" { user := user.(email := email.value); }
    if phoneNo.Some? && phoneNo.value != "" { user := user.(phoneNo := phoneNo.value); }
    users.Update(user);
    r := Success(user);
  }

  /** `deleteUser`: "User not found" with no change, else exactly that user is removed. */
  method DeleteUser(users: UserRepository, userId: Id) returns (r: Result<(), ServiceError>)
    requires users.Valid()
    modifies users
    ensures users.Valid() && users.nextId == old(users.nextId)
    ensures if userId !in old(users.users) then
        r == Failure(UserNotFound) && users.users == old(users.users)
      else
        r == Success(()) && users.users == old(users.users) - {userId}
  {
    if userId !in users.users {
      return Failure(UserNotFound);
    }
    users.Delete(userId);
    r := Success(());
  }

  /**
   * `initiatePasswordReset`: an unknown email is "User not found" with no change;
   * otherwise a user with that email gets the generated token with an expiry one hour
   * after `now`. The token is stored before the email is sent, so a failed delivery
   * reports an error but keeps the token.
   */
  method InitiatePasswordReset(users: UserRepository, email: string, generate: (Id, Time) -> string,
                               mailDelivered: bool, now: Time)
    returns (r: Result<(), ServiceError>)
    requires users.Valid()
    modifies users
    ensures users.Valid() && users.nextId == old(users.nextId)
    ensures !EmailTaken(old(users.users), email) ==>
      r == Failure(UserNotFound) && users.users == old(users.users)
    ensures EmailTaken(old(users.users), email) ==>
      && r == (if mailDelivered then Success(()) else Failure(ResetEmailFailed))
      && exists id :: id in old(users.users) && old(users.users)[id].email == email
                      && users.users == old(users.users)[id := Issue(old(users.users)[id], generate(id, now), now)]
  {
    var found := users.FindByEmail(email);
    if found.None? {
      return Failure(UserNotFound);
    }
    var id := found.value;
    var user := users.users[id];
    var resetToken := generate(id, now);
    user := user.(resetToken := Some(resetToken));
    user := user.(resetTokenExpire := Some(now + ResetTokenLifetime));
    users.Update(user);
    if !mailDelivered {
      return Failure(ResetEmailFailed);
    }
    r := Success(());
  }

  /**
   * `resetPassword`: the JWT parser first refuses a token whose signature or format is
   * bad or whose signed expiry has passed, with its own exception; a token without an
   * `id` claim is "Invalid or expired token"; then a decoded id with no user is "User not
   * found"; then the stored token must equal the supplied one with a stored expiry not
   * before `now`. On success the user's password becomes the encoded new password and
   * the token and expiry are cleared; every failure changes nothing.
   */
  method ResetPassword(users: UserRepository, token: string, newPassword: string,
                       decode: string -> Option<Claims>, encode: string -> string, now: Time)
    returns (r: Result<(), ServiceError>)
    requires users.Valid()
    modifies users
    ensures users.Valid() && users.nextId == old(users.nextId)
    ensures if decode(token).None? || !JwtLiveJava(decode(token).value, now) then
        r == Failure(TokenRejected) && users.users == old(users.users)
      else if decode(token).value.id.None? then
        r == Failure(InvalidOrExpiredToken) && users.users == old(users.users)
      else if decode(token).value.id.value !in old(users.users) then
        r == Failure(UserNotFound) && users.users == old(users.users)
      else if !Accepts(old(users.users)[decode(token).value.id.value], token, now) then
        r == Failure(InvalidOrExpiredToken) && users.users == old(users.users)
      else
        && r == Success(())
        && users.users == old(users.users)[decode(token).value.id.value :=
                                           Consume(old(users.users)[decode(token).value.id.value], encode(newPassword))]
  {
    var claims := decode(token);
    if claims.None? || now > claims.value.expiresAt {
      return Failure(TokenRejected);
    }
    var userId := claims.value.id;
    if userId.None? {
      return Failure(InvalidOrExpiredToken);
    }
    if userId.value !in users.users {
      return Failure(UserNotFound);
    }
    var user := users.users[userId.value];
    if user.resetToken.None? || user.resetToken.value != token
       || user.resetTokenExpire.None? || user.resetTokenExpire.value < now {
      return Failure(InvalidOrExpiredToken);
    }
    user := user.(password := encode(newPassword));
    user := user.(resetToken := None);
    user := user.(resetTokenExpire := None);
    users.Update(user);
    r := Success(());
  }
}
