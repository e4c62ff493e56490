/**
 * The Express `userControllers`: registration, login, profile update and deletion,
 * record effects only. bcrypt is the parameter pair `hash`/`compare`; the issued auth
 * token is represented by the user id it is signed for.
 */
module UserControllers {
  import opened Common
  import opened HttpErrors
  import opened UserModel
  import opened Repositories

  const UserNotFound: HttpError := HttpError(404, "User not found")

  /**
   * `registerUser`: validator rejection and a used email are 403s that create no user
   * (for a used email the handler goes on to `User.create`, which the unique index on
   * `email` refuses); otherwise one user holding the hash of the password is created
   * under a fresh id, and a token for that id is returned.
   */
  method RegisterUser(users: UserRepository, validationFailed: bool, name: string, email: string,
                      phoneNo: string, password: string, hash: string -> string, now: Time)
    returns (r: Result<Id, HttpError>)
    requires users.Valid()
    modifies users
    ensures users.Valid()
    ensures if validationFailed || EmailTaken(old(users.users), email) then
        && r == Failure(if validationFailed then ValidationRejected else HttpError(403, "User already exists"))
        && users.users == old(users.users) && users.nextId == old(users.nextId)
      else
        && r == Success(old(users.nextId))
        && old(users.nextId) !in old(users.users)
        && users.users == old(users.users)[old(users.nextId) :=
                                           NewUser(name, email, phoneNo, hash(password), now).(id := Some(old(users.nextId)))]
  {
    if validationFailed {
      return Failure(ValidationRejected);
    }
    if EmailTaken(users.users, email) {
      return Failure(HttpError(403, "User already exists"));
    }
    var secPass := hash(password);
    var user := users.Insert(NewUser(name, email, phoneNo, secPass, now));
    r := Success(user.id.value);
  }

  /**
   * `login`: 403 from the validator, 404 exactly when no user has the email, 400 when the
   * password does not match; a token is issued only for a user with that email whose
   * stored hash matches. It changes nothing.
   */
  method Login(users: UserRepository, validationFailed: bool, email: string, password: string,
               compare: (string, string) -> bool)
    returns (r: Result<Id, HttpError>)
    ensures validationFailed ==> r == Failure(ValidationRejected)
    ensures !validationFailed ==> (r == Failure(UserNotFound) <==> !EmailTaken(users.users, email))
    ensures r.Success? ==> && !validationFailed && r.value in users.users
                           && users.users[r.value].email == email
                           && compare(password, users.users[r.value].password)
    ensures r == Failure(HttpError(400, "Invalid Password")) ==>
      exists id :: id in users.users && users.users[id].email == email
                   && !compare(password, users.users[id].password)
    ensures !validationFailed ==>
      r.Success? || r == Failure(UserNotFound) || r == Failure(HttpError(400, "Invalid Password"))
  {
    if validationFailed {
      return Failure(ValidationRejected);
    }
    var found := users.FindByEmail(email);
    if found.None? {
      return Failure(UserNotFound);
    }
    var user := users.users[found.value];
    var passwordcompare := compare(password, user.password);
    if !passwordcompare {
      return Failure(HttpError(400, "Invalid Password"));
    }
    r := Success(found.value);
  }

  /**
   * `updateUser`: 404 with no change for a missing user; otherwise name, email and
   * phone number are overwritten by the truthy request values, which for strings is the
   * same profile patch the Spring service applies.
   */
  method UpdateUser(users: UserRepository, userId: Id,
                    name: Option<string>, email: Option<string>, phoneNo: Option<string>)
    returns (r: Result<(), HttpError>)
    requires users.Valid()
    modifies users
    ensures users.Valid() && users.nextId == old(users.nextId)
    ensures if userId !in old(users.users) then
        r == Failure(UserNotFound) && users.users == old(users.users)
      else
        && r == Success(())
        && users.users == old(users.users)[userId := PatchUser(old(users.users)[userId], name, email, phoneNo)]
  {
    if userId !in users.users {
      return Failure(UserNotFound);
    }
    var user := users.users[userId];
    if name.Some? && name.value != "" { user := user.(name := name.value); }
    if email.Some? && email.value != "" { user := user.(email := email.value); }
    if phoneNo.Some? && phoneNo.value != "" { user := user.(phoneNo := phoneNo.value); }
    users.Update(user);
    r := Success(());
  }

  /** `deleteUser`: 404 with no change for a missing user, else exactly that user is deleted. */
  method DeleteUser(users: UserRepository, userId: Id) returns (r: Result<(), HttpError>)
    requires users.Valid()
    modifies users
    ensures users.Valid() && users.nextId == old(users.nextId)
    ensures if userId !in old(users.users) then
        r == Failure(UserNotFound) && users.users == old(users.users)
      else
        r == Success(()) && users.users == old(users.users) - {userId}
  {
    if userId !in users.users {
      return Failure(UserNotFound);
    }
    users.Delete(userId);
    r := Success(());
  }
}
