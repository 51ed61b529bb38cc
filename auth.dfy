/**
 * backend/app/routes/auth.py: login and signup over the accounts table.
 * bcrypt and the JWT encoder are parameters: `check(plain, stored)` is
 * `bcrypt.checkpw`, `hash(plain)` is `hashpw` with the salt it drew, and
 * `encode(claims)` is `create_access_token`, whose expiry claim is left to
 * the encoder.  A database fault is a boolean parameter per query.
 */
module Auth {
  import opened Wrappers
  import opened Entities
  import opened Store
  import opened BackendStore
  import opened Middleware
  import BackendMain

  // ---------------------------------------------------------------- login

  datatype LoginRequest = LoginRequest(email: string, password: string)

  /** The cookie `response.set_cookie` adds. */
  datatype Cookie = Cookie(name: string, value: string, httpOnly: bool, maxAge: nat)

  datatype LoginReply = LoginReply(message: string, token: string, cookie: Cookie)

  /** `HTTPException(detail=...)` raises before it is raised: its status code is a required argument. */
  const NoStatusCode: string := "TypeError: __init__() missing 1 required positional argument: 'status_code'"
  const BadCredentials: string := "Invalid email or password"
  const InternalError: string := "Internal server error"
  const LoginSucceeded: string := "Login successful"

  /** Ten days, in seconds. */
  const CookieLifetime: nat := 10 * 24 * 60 * 60

  /** `db.query(User).filter(User.email == email).first()` */
  function FindByEmail(users: seq<User>, email: string): (r: Option<nat>)
    ensures r.Some? ==> r.value < |users| && users[r.value].email == email
    ensures r.None? <==> forall i :: 0 <= i < |users| ==> users[i].email != email
  {
    FirstIndex(users, (u: User) => u.email == email)
  }

  /** The claims `login` puts in the token. */
  function ClaimsOf(u: User): Claims {
    Claims(Some(u.id), Some(u.email))
  }

  /**
   * `login`: `queryFails` says whether the lookup by email raised a database error.
   * The request's email is an `EmailStr`, which request validation already
   * refuses with 422 when it is empty, so of the two emptiness guards only the
   * empty password can be met by a request that reaches the handler.
   */
  function Login(users: seq<User>, queryFails: bool, req: LoginRequest,
                 check: (string, string) -> bool, encode: Claims -> string): (r: Result<LoginReply>)
    ensures req.email == "" || req.password == "" ==> r == Err(Crash(NoStatusCode))
    ensures req.email != "" && req.password != "" && queryFails ==> r == Err(Http(500, InternalError))
    ensures r.Ok? <==>
      && req.email != "" && req.password != "" && !queryFails
      && FindByEmail(users, req.email).Some?
      && check(req.password, users[FindByEmail(users, req.email).value].password)
    ensures r.Err? && r.failure.Http? && r.failure.status != 500 ==> r.failure == Http(401, BadCredentials)
    ensures r.Ok? ==>
      var token := encode(ClaimsOf(users[FindByEmail(users, req.email).value]));
      && r.value.token == token
      && r.value.cookie == Cookie(TokenCookie, token, true, CookieLifetime)
  {
    if req.email == "" || req.password == "" then Err(Crash(NoStatusCode))
    else if queryFails then Err(Http(500, InternalError))
    else match FindByEmail(users, req.email)
      case None => Err(Http(401, BadCredentials))
      case Some(k) =>
        if !check(req.password, users[k].password) then Err(Http(401, BadCredentials))
        else
          var token := encode(ClaimsOf(users[k]));
          Ok(LoginReply(LoginSucceeded, token, Cookie(TokenCookie, token, true, CookieLifetime)))
  }

  /**
   * The cookie a login sets lets the holder through the backend's gate on
   * every path, as that user, provided decoding the token gives back the
   * claims it was made from.
   */
  lemma LoginOpensGate(users: seq<User>, req: LoginRequest, check: (string, string) -> bool,
                       encode: Claims -> string, decode: string -> Decoded, path: string)
    requires Login(users, false, req, check, encode).Ok?
    requires forall c :: encode(c) != "" && decode(encode(c)) == Returned(Some(c))
    requires path !in BackendMain.PublicPaths
    ensures var r := Login(users, false, req, check, encode).value;
      BackendMain.AccessTokenMiddleware(path, Some(r.cookie.value), decode)
        == Forward(Some(ClaimsOf(users[FindByEmail(users, req.email).value])))
  {
    var u := users[FindByEmail(users, req.email).value];
    assert encode(ClaimsOf(u)) != "" && decode(encode(ClaimsOf(u))) == Returned(Some(ClaimsOf(u)));
  }

  // ---------------------------------------------------------------- signup

  /** Every field may be missing. */
  datatype RegisterRequest = RegisterRequest(name: Option<string>, email: Option<string>,
                                             password: Option<string>, dob: Option<string>)

  datatype SignupReply = SignupReply(message: string, userId: Id, email: string, dob: string, createdAt: string)

  const AlreadyRegistered: string := "User already exists"
  const EmailRequired: string := "Email is required"
  const PasswordRequired: string := "Password is required"
  const PasswordTooShort: string := "Password must be at least 6 characters long"
  const MinPasswordLength: nat := 6
  const UserCreated: string := "User created successfully"

  predicate Truthy(s: Option<string>) {
    s.Some? && s.value != ""
  }

  /** An account with this email exists; `User.email == None` matches no row. */
  predicate Registered(users: seq<User>, email: Option<string>) {
    email.Some? && FindByEmail(users, email.value).Some?
  }

  /** The checks of `signup` before the insert, in order; None when all pass. */
  function SignupCheck(users: seq<User>, queryFails: bool, req: RegisterRequest): (r: Option<Failure>)
    ensures queryFails ==> r == Some(Http(500, InternalError))
    ensures !queryFails && Registered(users, req.email) ==> r == Some(Http(409, AlreadyRegistered))
    ensures !queryFails && !Registered(users, req.email) && !Truthy(req.email) ==> r == Some(Http(400, EmailRequired))
    ensures !queryFails && !Registered(users, req.email) && Truthy(req.email) && !Truthy(req.password) ==>
      r == Some(Http(400, PasswordRequired))
    ensures (!queryFails && !Registered(users, req.email) && Truthy(req.email) && Truthy(req.password)
             && |req.password.value| < MinPasswordLength) ==> r == Some(Http(400, PasswordTooShort))
    ensures r.None? <==>
      && !queryFails && !Registered(users, req.email) && Truthy(req.email) && Truthy(req.password)
      && |req.password.value| >= MinPasswordLength
  {
    if queryFails then Some(Http(500, InternalError))
    else if Registered(users, req.email) then Some(Http(409, AlreadyRegistered))
    else if !Truthy(req.email) then Some(Http(400, EmailRequired))
    else if !Truthy(req.password) then Some(Http(400, PasswordRequired))
    else if |req.password.value| < MinPasswordLength then Some(Http(400, PasswordTooShort))
    else None
  }

  /** The account `signup` inserts: the hashed password, and "" for a missing date of birth. */
  function NewUser(id: Id, req: RegisterRequest, hash: string -> string, now: string): (u: User)
    requires req.name.Some? && req.email.Some? && req.password.Some?
    ensures u.id == id && u.email == req.email.value && u.createdAt == now
    ensures u.password == hash(req.password.value)
    ensures u.dob == if Truthy(req.dob) then req.dob.value else ""
  {
    User(id, req.name.value, req.email.value, hash(req.password.value), if Truthy(req.dob) then req.dob.value else "", now)
  }

  /**
   * `signup`.  `queryFails` is a fault of the lookup by email and
   * `commitFails` one of the commit; a missing name violates the NOT NULL
   * column, which the commit reports as an integrity error: all three
   * become a 500 and leave the table as it was.
   */
  method Signup(db: BackendDb, req: RegisterRequest, hash: string -> string, now: string,
                queryFails: bool, commitFails: bool)
    returns (r: Result<SignupReply>)
    requires db.Valid()
    modifies db`users, db`nextId
    ensures db.Valid()
    ensures SignupCheck(old(db.users), queryFails, req).Some? ==>
      r == Err(SignupCheck(old(db.users), queryFails, req).value) && unchanged(db)
    ensures SignupCheck(old(db.users), queryFails, req).None? && (req.name.None? || commitFails) ==>
      r == Err(Http(500, InternalError)) && unchanged(db)
    ensures r.Ok? <==> SignupCheck(old(db.users), queryFails, req).None? && req.name.Some? && !commitFails
    ensures r.Ok? ==>
      var u := NewUser(old(db.nextId), req, hash, now);
      && db.users == old(db.users) + [u]
      && r.value == SignupReply(UserCreated, u.id, u.email, u.dob, now)
  {
    var failure := SignupCheck(db.users, queryFails, req);
    if failure.Some? {
      return Err(failure.value);
    }
    if req.name.None? || commitFails {
      return Err(Http(500, InternalError));
    }
    var id := db.NewId();
    var u := NewUser(id, req, hash, now);
    db.users := db.users + [u];
    r := Ok(SignupReply(UserCreated, u.id, u.email, u.dob, now));
  }

  /** No two accounts share an email. */
  predicate UniqueEmails(users: seq<User>) {
    forall i, j :: 0 <= i < j < |users| ==> users[i].email != users[j].email
  }

  /** A successful signup keeps emails unique. */
  lemma SignupKeepsEmailsUnique(users: seq<User>, id: Id, req: RegisterRequest, hash: string -> string, now: string)
    requires UniqueEmails(users)
    requires SignupCheck(users, false, req).None? && req.name.Some?
    ensures UniqueEmails(users + [NewUser(id, req, hash, now)])
  {
    var all := users + [NewUser(id, req, hash, now)];
    forall i, j | 0 <= i < j < |all| ensures all[i].email != all[j].email
    {
      assert all[i] == users[i];
      if j < |users| {
        assert all[j] == users[j];
      }
    }
  }

  /**
   * With bcrypt's check accepting the hash of the same password, the
   * account a signup creates can log in with the credentials it was
   * created with, and the token carries its id and email.
   */
  lemma SignupThenLogin(users: seq<User>, id: Id, req: RegisterRequest, hash: string -> string, now: string,
                        check: (string, string) -> bool, encode: Claims -> string)
    requires SignupCheck(users, false, req).None? && req.name.Some?
    requires check(req.password.value, hash(req.password.value))
    ensures var u := NewUser(id, req, hash, now);
      var r := Login(users + [u], false, LoginRequest(req.email.value, req.password.value), check, encode);
      && r.Ok?
      && r.value.token == encode(Claims(Some(id), req.email))
  {
    var u := NewUser(id, req, hash, now);
    var all := users + [u];
    var k := FindByEmail(all, req.email.value);
    assert all[|users|] == u;
    assert forall i :: 0 <= i < |users| ==> all[i] == users[i];
  }
}
