/** The JSON login and registration routes: the ordered login checks with the
    password-hash upgrade, and the mapping of registration failures to error
    codes. */
module Auth {
  import opened Wrappers
  import opened Python
  import Db
  import Users

  const UserNotFound := "USER_NOT_FOUND"
  const UserInactive := "USER_INACTIVE"
  const UserNotVerified := "USER_NOT_VERIFIED"
  const InvalidPassword := "INVALID_PASSWORD"
  const UserAlreadyExists := "REGISTER_USER_ALREADY_EXISTS"
  const Bearer := "bearer"

  /** What the check chain of `login_json` decides: a refusal, or acceptance
      with the re-hashed password the helper may hand back. */
  datatype LoginDecision = Deny(status: int, detail: string) | Grant(newHash: Option<string>)

  /** The login checks, in the order the route makes them: existence, then
      active, then verified, then the password. `verifyAndUpdate` is the
      password helper: (verified, updated hash or None). */
  function DecideLogin(user: Option<Db.User>, password: string,
                       verifyAndUpdate: (string, string) -> (bool, Option<string>)): (d: LoginDecision)
    ensures d.Grant? <==> user.Some? && user.value.isActive && user.value.isVerified
                          && verifyAndUpdate(password, user.value.hashedPassword).0
    ensures d.Grant? ==> d.newHash == verifyAndUpdate(password, user.value.hashedPassword).1
    ensures user.None? ==> d == Deny(404, UserNotFound)
    ensures user.Some? && !user.value.isActive ==> d == Deny(400, UserInactive)
    ensures user.Some? && user.value.isActive && !user.value.isVerified ==> d == Deny(400, UserNotVerified)
    ensures (user.Some? && user.value.isActive && user.value.isVerified
             && !verifyAndUpdate(password, user.value.hashedPassword).0) ==> d == Deny(400, InvalidPassword)
  {
    if user.None? then Deny(404, UserNotFound)
    else if !user.value.isActive then Deny(400, UserInactive)
    else if !user.value.isVerified then Deny(400, UserNotVerified)
    else
      var (verified, updated) := verifyAndUpdate(password, user.value.hashedPassword);
      if !verified then Deny(400, InvalidPassword) else Grant(updated)
  }

  /** A successful login's body. */
  datatype TokenReply = TokenReply(accessToken: string, tokenType: string)

  /** `login_json`: on acceptance the stored hash is replaced when the helper
      produced a new one, and a token is issued for the (updated) user.
      `writeToken` is the JWT strategy. */
  method LoginJson(store: Db.UserStore, email: string, password: string,
                   verifyAndUpdate: (string, string) -> (bool, Option<string>),
                   writeToken: Db.User -> string) returns (r: Outcome<TokenReply>)
    requires store.Valid()
    modifies store
    ensures store.Valid()
    ensures var d := DecideLogin(if email in old(store.users) then Some(old(store.users)[email]) else None,
                                 password, verifyAndUpdate);
            && (d.Deny? ==> r == Raised(HTTPException(d.status, d.detail)) && store.users == old(store.users))
            && (d.Grant? && d.newHash.None? ==> store.users == old(store.users))
            && (d.Grant? && d.newHash.Some? ==>
                  store.users == old(store.users)[email := old(store.users)[email].(hashedPassword := d.newHash.value)])
            && (d.Grant? ==> r == Ok(TokenReply(writeToken(store.users[email]), Bearer)))
  {
    var found := if email in store.users then Some(store.users[email]) else None;
    var d := DecideLogin(found, password, verifyAndUpdate);
    if d.Deny? {
      return Raised(HTTPException(d.status, d.detail));
    }
    var user := found.value;
    if d.newHash.Some? {
      user := user.(hashedPassword := d.newHash.value);
      store.users := store.users[email := user];
    }
    r := Ok(TokenReply(writeToken(user), Bearer));
  }

  /** How `user_manager.create` ends: the new user, or one of the two
      exceptions the route maps. */
  datatype CreateResult = Created(user: Db.User) | AlreadyExists | PasswordRejected(reason: string)

  /** `UserManager.create` as fastapi-users runs it: the password policy
      first, then the uniqueness of the address, then a fresh active,
      unverified user without a code. `id` and `hashed` are what the id
      factory and the password helper produce. */
  function CreateUser(users: map<string, Db.User>, email: string, password: string,
                      id: string, hashed: string): (r: CreateResult)
    ensures r.Created? <==> Users.ValidatePassword(password, email).None? && email !in users
    ensures r.PasswordRejected? <==> Users.ValidatePassword(password, email).Some?
    ensures r.AlreadyExists? ==> email in users
    ensures r.Created? ==> r.user.email == email && r.user.id == id && r.user.hashedPassword == hashed
                           && r.user.isActive && !r.user.isVerified && !r.user.isSuperuser
                           && r.user.otp.None? && r.user.otpExpiration.None?
  {
    var reason := Users.ValidatePassword(password, email);
    if reason.Some? then PasswordRejected(reason.value)
    else if email in users then AlreadyExists
    else Created(Db.User(id, email, hashed, true, false, false, None, None))
  }

  /** The `detail` `register_json` answers a failed creation with; the
      policy's own reason is not passed on. */
  function RegisterErrorDetail(c: CreateResult): (detail: string)
    requires !c.Created?
    ensures c.AlreadyExists? <==> detail == UserAlreadyExists
    ensures c.PasswordRejected? <==> detail == InvalidPassword
  {
    match c
    case AlreadyExists => UserAlreadyExists
    case PasswordRejected(_) => InvalidPassword
  }

  /** The body of a successful registration. */
  datatype Registered = Registered(id: string, email: string)

  /** `register_json`: inserts the created user, or raises 400 with the mapped
      detail and leaves the store as it was. */
  method RegisterJson(store: Db.UserStore, email: string, password: string, id: string, hashed: string)
    returns (r: Outcome<Registered>)
    requires store.Valid()
    modifies store
    ensures store.Valid()
    ensures var c := CreateUser(old(store.users), email, password, id, hashed);
            && (c.Created? ==> r == Ok(Registered(id, email)) && store.users == old(store.users)[email := c.user])
            && (!c.Created? ==> r == Raised(HTTPException(400, RegisterErrorDetail(c))) && store.users == old(store.users))
  {
    var c := CreateUser(store.users, email, password, id, hashed);
    if !c.Created? {
      return Raised(HTTPException(400, RegisterErrorDetail(c)));
    }
    store.users := store.users[email := c.user];
    r := Ok(Registered(c.user.id, c.user.email));
  }
}
