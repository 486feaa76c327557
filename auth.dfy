/**
 * `lib/auth.ts`: registration and login over the user store. bcrypt and the JSON Web
 * Token library are foreign code; they enter as the opaque functions of a `Crypto` value
 * that the caller supplies, and nothing is assumed about them beyond their types.
 */
module Auth {
  import opened Wrappers
  import opened Store
  import opened JsArray

  /** The identity claims carried by a session token. */
  datatype AuthUser = AuthUser(id: string, email: string, role: Role, name: string)

  /**
   * The foreign libraries: `hash` is `bcrypt.hashSync(_, 10)`, `compare` is
   * `bcrypt.compareSync`, `sign` is `jwt.sign` with the server secret and a 7-day expiry,
   * and `verify` is `jwt.verify`, whose `Failure` stands for the exception it throws on a
   * malformed, expired or badly signed token.
   */
  datatype Crypto = Crypto(
    hash: string -> string,
    compare: (string, string) -> bool,
    sign: AuthUser -> string,
    verify: string -> Result<AuthUser, string>)

  /** The public part of a stored user: everything but the password hash and creation time. */
  function Claims(u: User): (r: AuthUser)
    ensures r.id == u.id && r.email == u.email && r.role == u.role && r.name == u.name
  {
    AuthUser(u.id, u.email, u.role, u.name)
  }

  /** `verifyToken`: every failure of `jwt.verify` is caught and becomes `null`. */
  function VerifyToken(crypto: Crypto, token: string): (r: Option<AuthUser>)
    ensures r.None? <==> crypto.verify(token).Failure?
    ensures r.Some? ==> r.value == crypto.verify(token).value
  {
    match crypto.verify(token)
    case Success(u) => Some(u)
    case Failure(_) => None
  }

  /**
   * `authenticateUser`: the claims of the first user with this email, provided the
   * password matches that user's stored hash.
   */
  function AuthenticateUser(users: seq<User>, crypto: Crypto, email: string, password: string): (r: Option<AuthUser>)
    ensures UserByEmail(users, email).None? ==> r.None?
    ensures UserByEmail(users, email).Some? && !crypto.compare(password, UserByEmail(users, email).value.password)
      ==> r.None?
    ensures UserByEmail(users, email).Some? && crypto.compare(password, UserByEmail(users, email).value.password)
      ==> r == Some(Claims(UserByEmail(users, email).value))
    ensures r.Some? ==>
      exists i :: IsFirst(users, UserHasEmail(email), i)
        && crypto.compare(password, users[i].password) && r.value == Claims(users[i])
  {
    match UserByEmail(users, email)
    case None => None
    case Some(u) =>
      if !crypto.compare(password, u.password) then None
      else Some(Claims(u))
  }

  /**
   * `createUser`: refuses an email that is already registered, and otherwise stores the
   * user with the hash of the password and returns the new user's claims.
   */
  method CreateUser(db: Db, crypto: Crypto, email: string, password: string, role: Role, name: string,
                    id: string, now: string) returns (r: Result<AuthUser, string>)
    requires db.Valid()
    modifies db
    ensures db.Valid()
    ensures db.products == old(db.products)
    ensures UserByEmail(old(db.users), email).Some? ==>
      r == Failure("User already exists") && db.users == old(db.users)
    ensures UserByEmail(old(db.users), email).None? ==>
      r == Success(AuthUser(id, email, role, name))
      && db.users == old(db.users) + [User(id, email, crypto.hash(password), role, name, now)]
  {
    var existing := UserByEmail(db.users, email);
    if existing.Some? {
      return Failure("User already exists");
    }
    var hashed := crypto.hash(password);
    var user := db.UsersCreate(NewUser(email, hashed, role, name), id, now);
    r := Success(Claims(user));
  }

  /**
   * Logging in right after a registration gives back the registered claims, as long as
   * the password library accepts a password against its own hash (a property of bcrypt
   * taken here as a hypothesis).
   */
  lemma LoginAfterRegister(users: seq<User>, crypto: Crypto, email: string, password: string,
                           role: Role, name: string, id: string, now: string)
    requires UserByEmail(users, email).None?
    requires crypto.compare(password, crypto.hash(password))
    ensures AuthenticateUser(users + [User(id, email, crypto.hash(password), role, name, now)], crypto, email, password)
      == Some(AuthUser(id, email, role, name))
  {
    var after := users + [User(id, email, crypto.hash(password), role, name, now)];
    assert after[|users|].email == email;
    assert UserByEmail(after, email).Some?;
    var i :| IsFirst(after, UserHasEmail(email), i);
    assert i == |users|;
  }

  /** A registration never changes which user an earlier-registered email logs in as. */
  lemma LoginUnaffectedByLaterUsers(users: seq<User>, later: seq<User>, crypto: Crypto, email: string, password: string)
    requires UserByEmail(users, email).Some?
    ensures AuthenticateUser(users + later, crypto, email, password) == AuthenticateUser(users, crypto, email, password)
  {
    FindAppend(users, later, UserHasEmail(email));
    assert UserByEmail(users + later, email) == UserByEmail(users, email);
  }
}
