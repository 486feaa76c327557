/** `app/api/auth/register/route.ts`: registration, answered with the new user and a session token. */
module RegisterRoute {
  import opened Wrappers
  import opened Store
  import opened Auth
  import opened Http

  /** The parsed body; a field is `None` when it is missing. */
  datatype RegisterBody = RegisterBody(email: Option<string>, password: Option<string>, role: Option<string>, name: Option<string>)

  predicate AllPresent(b: RegisterBody) {
    Present(b.email) && Present(b.password) && Present(b.role) && Present(b.name)
  }

  /** The role names the route accepts; any other string is refused. */
  function ParseRole(s: string): (r: Option<Role>)
    ensures r == Some(Vendor) <==> s == "vendor"
    ensures r == Some(Customer) <==> s == "customer"
    ensures r.None? <==> s != "vendor" && s != "customer"
  {
    if s == "vendor" then Some(Vendor)
    else if s == "customer" then Some(Customer)
    else None
  }

  const FieldsRequired := "All fields are required"
  const InvalidRole := "Invalid role"

  /**
   * POST: a missing or empty field is 400 before the role is looked at; an unknown role
   * is 400; an email already registered surfaces as 500 with the message `createUser`
   * throws; otherwise the user is stored and returned with a token signed for that user.
   */
  method Post(db: Db, crypto: Crypto, body: RegisterBody, id: string, now: string) returns (res: Response)
    requires db.Valid()
    modifies db
    ensures db.Valid()
    ensures db.products == old(db.products)
    ensures !AllPresent(body) ==> res == BadRequest(FieldsRequired) && db.users == old(db.users)
    ensures AllPresent(body) && ParseRole(body.role.value).None? ==>
      res == BadRequest(InvalidRole) && db.users == old(db.users)
    ensures AllPresent(body) && ParseRole(body.role.value).Some? && UserByEmail(old(db.users), body.email.value).Some? ==>
      res == ServerError("User already exists") && db.users == old(db.users)
    ensures AllPresent(body) && ParseRole(body.role.value).Some? && UserByEmail(old(db.users), body.email.value).None? ==>
      var user := AuthUser(id, body.email.value, ParseRole(body.role.value).value, body.name.value);
      && res == Registered(user, crypto.sign(user))
      && db.users == old(db.users)
           + [User(id, body.email.value, crypto.hash(body.password.value), user.role, body.name.value, now)]
  {
    if !AllPresent(body) {
      return BadRequest(FieldsRequired);
    }
    var role := ParseRole(body.role.value);
    if role.None? {
      return BadRequest(InvalidRole);
    }
    var created := CreateUser(db, crypto, body.email.value, body.password.value, role.value, body.name.value, id, now);
    match created
    case Failure(message) =>
      res := ServerError(message);
    case Success(user) =>
      res := Registered(user, crypto.sign(user));
  }
}
