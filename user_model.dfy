/** The user record, its constructor and the profile patch both backends apply. */
module UserModel {
  import opened Common

  /** `password` holds the encoder's output; the reset fields are unset until a reset is requested. */
  datatype User = User(
    id: Option<Id>,
    name: string,
    email: string,
    phoneNo: string,
    password: string,
    date: Time,
    resetToken: Option<string>,
    resetTokenExpire: Option<Time>)

  /** `new User(name, email, phoneNo, password)` at time `now`. */
  function NewUser(name: string, email: string, phoneNo: string, password: string, now: Time): (u: User)
    ensures u.id == None && u.date == now
    ensures u.name == name && u.email == email && u.phoneNo == phoneNo && u.password == password
    ensures u.resetToken == None && u.resetTokenExpire == None
  {
    User(None, name, email, phoneNo, password, now, None, None)
  }

  /** A request value that overwrites a profile field: present and not the empty string. */
  predicate Given(v: Option<string>) {
    v.Some? && v.value != ""
  }

  /**
   * The profile update: name, email and phone number are overwritten by the given
   * values only; every other field is kept.
   */
  function PatchUser(u: User, name: Option<string>, email: Option<string>, phoneNo: Option<string>): (r: User)
    ensures r.id == u.id && r.password == u.password && r.date == u.date
    ensures r.resetToken == u.resetToken && r.resetTokenExpire == u.resetTokenExpire
    ensures r.name == (if Given(name) then name.value else u.name)
    ensures r.email == (if Given(email) then email.value else u.email)
    ensures r.phoneNo == (if Given(phoneNo) then phoneNo.value else u.phoneNo)
  {
    var u1 := if Given(name) then u.(name := name.value) else u;
    var u2 := if Given(email) then u1.(email := email.value) else u1;
    if Given(phoneNo) then u2.(phoneNo := phoneNo.value) else u2
  }

  /** Applying the same profile update twice gives the same record as applying it once. */
  lemma PatchUserIdempotent(u: User, name: Option<string>, email: Option<string>, phoneNo: Option<string>)
    ensures PatchUser(PatchUser(u, name, email, phoneNo), name, email, phoneNo) == PatchUser(u, name, email, phoneNo)
  {
  }
}
