/**
 * server/src/controllers/controller.auth.js: registration, the login decision,
 * the `auth` middleware and logout.
 *
 * bcrypt and jsonwebtoken are foreign: the model receives them as functions.
 * `hash` stands for bcrypt hashing, `matches(hash, plaintext)` for
 * `bcrypt.compare`, `sign` for `jwt.sign` and `verify` for `jwt.verify`.
 */
module AuthController {
  import opened Optional
  import opened Http
  import opened JsText
  import opened UserModel
  import opened Store

  /* ---------- register ---------- */

  /**
   * `register`: refuse a taken email with 400; otherwise build the document and
   * save it. `save()` validates, runs the pre-save hook (a new document's password
   * is always hashed) and inserts; a validation error or a duplicate username
   * (the unique index) is thrown out of the handler uncaught.
   */
  function RegisterStep(s: DbState, username: string, password: string, email: string,
                        hash: string -> string): (r: Step)
    requires ValidState(s)
    ensures ValidState(r.state)
    ensures EmailTaken(s.users, Lower(email)) ==> r == Step(Sent(BadRequest, "User already exists"), s)
    ensures r.response == Sent(Created, "User registered successfully") <==>
      && !EmailTaken(s.users, Lower(email))
      && ValidUser(NewUser(username, password, email))
      && !UsernameTaken(s.users, username)
    ensures r.response.Unhandled? ==> r.state == s
    ensures r.response != Sent(Created, "User registered successfully") ==> r.state == s
    ensures !EmailTaken(s.users, Lower(email)) && r.response != Sent(Created, "User registered successfully") ==>
      r.response.Unhandled?
    ensures r.response.Sent? && r.response.status == Created ==>
      && r.state.bans == s.bans
      && r.state.nextId == s.nextId + 1
      && s.nextId !in s.users
      && r.state.users == s.users[s.nextId := NewUser(username, hash(password), email)]
  {
    var doc := NewUser(username, password, email);
    if EmailTaken(s.users, doc.email) then
      Step(Sent(BadRequest, "User already exists"), s)
    else if !ValidUser(doc) then
      Step(Unhandled("ValidationError"), s)
    else if UsernameTaken(s.users, doc.username) then
      Step(Unhandled("duplicate key: username"), s)
    else
      var stored := doc.(password := hash(password));
      ValidUserStorable(doc, hash(password));
      InsertKeepsValid(s, stored);
      Step(Sent(Created, "User registered successfully"),
           DbState(s.users[s.nextId := stored], s.bans, s.nextId + 1))
  }

  lemma {:induction false} InsertKeepsValid(s: DbState, u: User)
    requires ValidState(s) && StoredUserOk(u)
    requires !EmailTaken(s.users, u.email) && !UsernameTaken(s.users, u.username)
    ensures s.nextId !in s.users
    ensures ValidState(DbState(s.users[s.nextId := u], s.bans, s.nextId + 1))
  {
    var t := DbState(s.users[s.nextId := u], s.bans, s.nextId + 1);
    forall a, b | a in t.users && b in t.users && t.users[a].email == t.users[b].email
      ensures a == b
    {
      if a != s.nextId && b != s.nextId {
        assert s.users[a].email == s.users[b].email;
      }
    }
    forall a, b | a in t.users && b in t.users && t.users[a].username == t.users[b].username
      ensures a == b
    {
      if a != s.nextId && b != s.nextId {
        assert s.users[a].username == s.users[b].username;
      }
    }
  }

  /** The handler on the live database, with its early returns. */
  method Register(db: Database, username: string, password: string, email: string,
                  hash: string -> string) returns (res: Response)
    requires db.Valid()
    modifies db
    ensures db.Valid()
    ensures Step(res, db.State()) == RegisterStep(old(db.State()), username, password, email, hash)
  {
    ghost var before := db.State();
    var doc := NewUser(username, password, email);
    if EmailTaken(db.users, doc.email) {
      return Sent(BadRequest, "User already exists");
    }
    if !ValidUser(doc) {
      return Unhandled("ValidationError");
    }
    var saving := new UserDocument(doc.password);
    saving.PreSave(hash);
    if UsernameTaken(db.users, doc.username) {
      return Unhandled("duplicate key: username");
    }
    db.users := db.users[db.nextId := doc.(password := saving.password)];
    db.nextId := db.nextId + 1;
    ghost var after := RegisterStep(before, username, password, email, hash);
    assert db.State() == after.state;
    return Sent(Created, "User registered successfully");
  }

  /** Registering the same email twice: the second request is refused and changes nothing. */
  lemma RegisterSameEmailTwice(s: DbState, username: string, password: string, email: string,
                               username2: string, password2: string, email2: string,
                               hash: string -> string)
    requires ValidState(s)
    requires Lower(email2) == Lower(email)
    requires RegisterStep(s, username, password, email, hash).response.Sent?
    requires RegisterStep(s, username, password, email, hash).response.status == Created
    ensures
      var s1 := RegisterStep(s, username, password, email, hash).state;
      RegisterStep(s1, username2, password2, email2, hash) == Step(Sent(BadRequest, "User already exists"), s1)
  {
    var s1 := RegisterStep(s, username, password, email, hash).state;
    assert s1.users[s.nextId].email == Lower(email2);
  }

  /* ---------- login ---------- */

  const TokenLifetimeSeconds: nat := 86400
  const CookieMaxAgeMs: nat := 3600000
  const TokenCookie: string := "token"

  /** The payload `jwt.sign` receives: the user id and the `expiresIn` option. */
  datatype Claims = Claims(id: UserId, expiresInSeconds: nat)

  datatype Cookie = Cookie(
    name: string,
    value: string,
    httpOnly: bool,
    secure: bool,
    maxAgeMs: nat,
    sameSite: string)

  /** The cookie `login` sets: http-only, not secure-only, one hour, same-site strict. */
  function SessionCookie(token: string): (c: Cookie)
    ensures c.name == TokenCookie && c.value == token
    ensures c.httpOnly && !c.secure && c.sameSite == "Strict"
    ensures c.maxAgeMs == 60 * 60 * 1000
  {
    Cookie(TokenCookie, token, true, false, CookieMaxAgeMs, "Strict")
  }

  datatype LoginResult =
    | Rejected(status: nat, message: string)
    | LoggedIn(token: string, cookie: Cookie)

  /**
   * `login`: find the user by (lower-cased) email and compare the password.
   * Either failure gives the same 401; `isActive` is never consulted. On success
   * the token carries the user id and a 24-hour expiry.
   */
  function Login(users: map<UserId, User>, email: string, password: string,
                 matches: (string, string) -> bool, sign: Claims -> string): (r: LoginResult)
    requires EmailsUnique(users)
    ensures !EmailTaken(users, Lower(email)) ==> r == Rejected(Unauthorized, "Invalid email or password")
    ensures forall id :: id in users && users[id].email == Lower(email) ==>
      r == if matches(users[id].password, password)
           then LoggedIn(sign(Claims(id, 24 * 60 * 60)), SessionCookie(sign(Claims(id, 24 * 60 * 60))))
           else Rejected(Unauthorized, "Invalid email or password")
  {
    var e := Lower(email);
    if !EmailTaken(users, e) then
      Rejected(Unauthorized, "Invalid email or password")
    else
      var id :| id in users && users[id].email == e;
      if !matches(users[id].password, password) then
        Rejected(Unauthorized, "Invalid email or password")
      else
        var token := sign(Claims(id, TokenLifetimeSeconds));
        LoggedIn(token, SessionCookie(token))
  }

  /** A banned user logs in exactly as an active one would: the answer does not depend on `isActive`. */
  lemma {:induction false} LoginIgnoresIsActive(users: map<UserId, User>, id: UserId, active: bool,
                                                email: string, password: string,
                                                matches: (string, string) -> bool, sign: Claims -> string)
    requires EmailsUnique(users) && id in users
    ensures EmailsUnique(users[id := users[id].(isActive := active)])
    ensures Login(users[id := users[id].(isActive := active)], email, password, matches, sign)
         == Login(users, email, password, matches, sign)
  {
    var banned := users[id := users[id].(isActive := active)];
    assert forall k :: k in banned <==> k in users;
    assert forall k :: k in users ==> banned[k].email == users[k].email && banned[k].password == users[k].password;
    assert EmailsUnique(banned);
    if EmailTaken(users, Lower(email)) {
      var k :| k in users && users[k].email == Lower(email);
      assert banned[k].email == Lower(email);
    } else {
      assert !EmailTaken(banned, Lower(email));
    }
  }

  /* ---------- auth ---------- */

  /** What `jwt.verify` yields: the decoded id, or the error it throws. */
  datatype Verified = Decoded(id: UserId) | Expired | Invalid

  /** What `auth` attaches as `req.user`: the looked-up user and its id. */
  datatype Principal = Principal(id: UserId, user: User)

  /** `req.cookies.token` when it is present and truthy (a non-empty string). */
  predicate HasToken(cookies: map<string, string>) {
    TokenCookie in cookies && cookies[TokenCookie] != ""
  }

  /**
   * The `auth` middleware: missing token, then verification (expired or any other
   * failure), then user existence, then `isActive`; only after all four does it
   * attach the user and call `next`. Every refusal is a 401.
   */
  function Authenticate(users: map<UserId, User>, cookies: map<string, string>,
                        verify: string -> Verified): (g: Gate<Principal>)
    ensures g.Halt? ==> g.status == Unauthorized
    ensures !HasToken(cookies) ==> g == Halt(Unauthorized, "Not authorized, token missing")
    ensures HasToken(cookies) && verify(cookies[TokenCookie]) == Expired ==>
      g == Halt(Unauthorized, "Token has expired")
    ensures HasToken(cookies) && verify(cookies[TokenCookie]) == Invalid ==>
      g == Halt(Unauthorized, "Invalid token")
    ensures HasToken(cookies) && verify(cookies[TokenCookie]).Decoded? ==>
      var id := verify(cookies[TokenCookie]).id;
      && (id !in users ==> g == Halt(Unauthorized, "Not authorized, user not found"))
      && (id in users && !users[id].isActive ==> g == Halt(Unauthorized, "this user is banned"))
    ensures g.Next? <==>
      && HasToken(cookies)
      && verify(cookies[TokenCookie]).Decoded?
      && verify(cookies[TokenCookie]).id in users
      && users[verify(cookies[TokenCookie]).id].isActive
    ensures g.Next? ==> g.value.id in users && g.value.user == users[g.value.id] && g.value.user.isActive
    ensures g.Next? ==>
      g.value == Principal(verify(cookies[TokenCookie]).id, users[verify(cookies[TokenCookie]).id])
  {
    if !HasToken(cookies) then
      Halt(Unauthorized, "Not authorized, token missing")
    else
      match verify(cookies[TokenCookie])
      case Expired => Halt(Unauthorized, "Token has expired")
      case Invalid => Halt(Unauthorized, "Invalid token")
      case Decoded(id) =>
        if id !in users then Halt(Unauthorized, "Not authorized, user not found")
        else if !users[id].isActive then Halt(Unauthorized, "this user is banned")
        else Next(Principal(id, users[id]))
  }

  /* ---------- logout ---------- */

  /** `logout`: answer 200 and tell the browser to drop the token cookie; the jar afterwards. */
  function Logout(cookies: map<string, string>): (r: (Response, map<string, string>))
    ensures r.0 == Sent(Ok, "Logged out successfully")
    ensures TokenCookie !in r.1
    ensures forall name :: name != TokenCookie ==> (name in r.1 <==> name in cookies)
    ensures forall name :: name in r.1 ==> r.1[name] == cookies[name]
  {
    (Sent(Ok, "Logged out successfully"), cookies - {TokenCookie})
  }

  /** The browser storing a cookie that a response set. */
  function SetCookie(cookies: map<string, string>, c: Cookie): map<string, string> {
    cookies[c.name := c.value]
  }

  /** Logging out twice is the same as logging out once. */
  lemma LogoutIdempotent(cookies: map<string, string>)
    ensures Logout(Logout(cookies).1) == Logout(cookies)
  {
    var once := cookies - {TokenCookie};
    assert once - {TokenCookie} == once;
  }

  /** After logout no request passes `auth`, whatever the tokens and users. */
  lemma LogoutEndsSession(users: map<UserId, User>, cookies: map<string, string>, verify: string -> Verified)
    ensures Authenticate(users, Logout(cookies).1, verify) == Halt(Unauthorized, "Not authorized, token missing")
  {
  }

  /**
   * The cookie a successful login sets passes `auth` (given that `jwt.verify`
   * decodes the token `jwt.sign` issued) exactly when the user is active.
   */
  lemma {:induction false} LoginCookieAuthenticates(users: map<UserId, User>, email: string, password: string,
                                                    matches: (string, string) -> bool, sign: Claims -> string,
                                                    verify: string -> Verified, jar: map<string, string>, id: UserId)
    requires EmailsUnique(users)
    requires id in users && users[id].email == Lower(email)
    requires Login(users, email, password, matches, sign).LoggedIn?
    requires verify(sign(Claims(id, TokenLifetimeSeconds))) == Decoded(id)
    requires sign(Claims(id, TokenLifetimeSeconds)) != ""
    ensures
      var r := Login(users, email, password, matches, sign);
      var g := Authenticate(users, SetCookie(jar, r.cookie), verify);
      && (g.Next? <==> users[id].isActive)
      && (g.Next? ==> g.value == Principal(id, users[id]))
      && (!users[id].isActive ==> g == Halt(Unauthorized, "this user is banned"))
  {
    var r := Login(users, email, password, matches, sign);
    assert r.token == sign(Claims(id, TokenLifetimeSeconds));
    assert SetCookie(jar, r.cookie)[TokenCookie] == r.token;
  }
}
