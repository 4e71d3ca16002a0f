/**
 * server/src/controllers/controller.admin.js: the admin guard and the moderation
 * handlers over the users table and the ban ledger. The routes run `auth`, then
 * `isAdmin`, then the handler.
 */
module AdminController {
  import opened Optional
  import opened Http
  import opened UserModel
  import opened BannedModel
  import opened Store
  import opened AuthController

  /** `isAdmin`: pass the request on only for the role "admin", otherwise answer 401. */
  function IsAdmin(user: User): (g: Gate<User>)
    ensures g.Next? <==> RoleName(user.role) == "admin"
    ensures g.Next? ==> g.value == user
    ensures g.Halt? ==> g == Halt(Unauthorized, "Unauthorised")
  {
    if user.role != AdminRole then Halt(Unauthorized, "Unauthorised") else Next(user)
  }

  /**
   * The chain every admin route runs before its handler: `auth`, then `isAdmin`.
   * The handler is reached exactly by an active admin holding a valid token.
   */
  function AdminGate(users: map<UserId, User>, cookies: map<string, string>,
                     verify: string -> Verified): (g: Gate<Principal>)
    ensures g.Next? <==>
      && HasToken(cookies)
      && verify(cookies[TokenCookie]).Decoded?
      && verify(cookies[TokenCookie]).id in users
      && users[verify(cookies[TokenCookie]).id].isActive
      && users[verify(cookies[TokenCookie]).id].role == AdminRole
    ensures g.Next? ==> g.value.id in users && g.value.user == users[g.value.id]
    ensures g.Halt? ==> g.status == Unauthorized
    ensures Authenticate(users, cookies, verify).Next? && g.Halt? ==> g == Halt(Unauthorized, "Unauthorised")
    ensures Authenticate(users, cookies, verify).Halt? ==> g == Authenticate(users, cookies, verify)
    ensures g.Next? ==> g == Authenticate(users, cookies, verify)
  {
    match Authenticate(users, cookies, verify)
    case Halt(status, message) => Halt(status, message)
    case Next(p) =>
      match IsAdmin(p.user)
      case Halt(status, message) => Halt(status, message)
      case Next(_) => Next(p)
  }

  /**
   * `getUsers`: every stored user, banned or not. `User.find()` yields a list,
   * never null, so the 404 branch of the source cannot be taken, not even for an
   * empty table.
   */
  method GetUsers(db: Database) returns (res: Response, users: map<UserId, User>)
    ensures res == Sent(Ok, "")
    ensures users == db.users
  {
    users := db.users;
    return Sent(Ok, ""), users;
  }

  /* ---------- changeRole ---------- */

  /**
   * `changeRole`: 404 for a missing or banned user, then 400 for any role other
   * than "admin" or "user" (so "moderator", which the schema accepts, is
   * refused); otherwise only that user's role changes.
   */
  function ChangeRoleStep(s: DbState, userId: UserId, newRole: string): (r: Step)
    requires ValidState(s)
    ensures ValidState(r.state)
    ensures r.response.Sent? && r.response.status in {Ok, BadRequest, NotFound}
    ensures r.response.status == NotFound <==> userId !in s.users || !s.users[userId].isActive
    ensures r.response.status == BadRequest <==>
      userId in s.users && s.users[userId].isActive && newRole != "admin" && newRole != "user"
    ensures r.response.status == NotFound ==> r.response.message == "user does not exist or is banned"
    ensures r.response.status == BadRequest ==> r.response.message == "invalid input"
    ensures r.response.status == Ok ==> r.response.message == "User role updated successfully"
    ensures r.response.status != Ok ==> r.state == s
    ensures r.response.status == Ok ==>
      && r.state.bans == s.bans && r.state.nextId == s.nextId
      && r.state.users.Keys == s.users.Keys
      && RoleName(r.state.users[userId].role) == newRole
      && r.state.users[userId] == s.users[userId].(role := r.state.users[userId].role)
      && (forall id :: id in s.users && id != userId ==> r.state.users[id] == s.users[id])
  {
    if userId !in s.users || !s.users[userId].isActive then
      Step(Sent(NotFound, "user does not exist or is banned"), s)
    else if newRole != "admin" && newRole != "user" then
      Step(Sent(BadRequest, "invalid input"), s)
    else
      var role := ParseRole(newRole).value;
      UpdateKeepsValid(s, userId, s.users[userId].(role := role));
      UpdateFrame(s.users, userId, s.users[userId].(role := role));
      Step(Sent(Ok, "User role updated successfully"),
           s.(users := s.users[userId := s.users[userId].(role := role)]))
  }

  method ChangeRole(db: Database, userId: UserId, newRole: string) returns (res: Response)
    requires db.Valid()
    modifies db
    ensures db.Valid()
    ensures Step(res, db.State()) == ChangeRoleStep(old(db.State()), userId, newRole)
  {
    ghost var before := db.State();
    if userId !in db.users || !db.users[userId].isActive {
      return Sent(NotFound, "user does not exist or is banned");
    }
    if newRole != "admin" && newRole != "user" {
      return Sent(BadRequest, "invalid input");
    }
    var role := ParseRole(newRole).value;
    db.users := db.users[userId := db.users[userId].(role := role)];
    assert db.State() == ChangeRoleStep(before, userId, newRole).state;
    return Sent(Ok, "User role updated successfully");
  }

  /* ---------- banUser ---------- */

  /**
   * `banUser`, a toggle: 404 for a missing user, 400 for an admin; an inactive
   * user is reactivated with no ledger entry; an active one is deactivated and
   * one ban record is appended. The deactivation is written before the record is
   * saved, so an empty reason (rejected by the record's `required` validator)
   * leaves the user deactivated, the ledger unchanged, and the error uncaught.
   */
  function BanUserStep(s: DbState, userId: UserId, reason: Option<string>, now: int): (r: Step)
    requires ValidState(s)
    ensures ValidState(r.state)
    ensures userId !in s.users ==> r == Step(Sent(NotFound, "User does not exist"), s)
    ensures userId in s.users && s.users[userId].role == AdminRole ==>
      r == Step(Sent(BadRequest, "Cannot ban an admin"), s)
    ensures r.state.nextId == s.nextId && r.state.users.Keys == s.users.Keys
    ensures forall id :: id in s.users && id != userId ==> r.state.users[id] == s.users[id]
    ensures s.bans <= r.state.bans && |r.state.bans| <= |s.bans| + 1
    ensures userId in s.users && s.users[userId].role != AdminRole ==>
      && r.state.users[userId] == s.users[userId].(isActive := !s.users[userId].isActive)
      && (!s.users[userId].isActive ==>
            r.response == Sent(Ok, "User unbanned successfully") && r.state.bans == s.bans)
      && (s.users[userId].isActive && reason != Some("") ==>
            r.response == Sent(Ok, "User banned successfully")
            && r.state.bans == s.bans + [NewBanRecord(userId, reason, now)])
      && (s.users[userId].isActive && reason == Some("") ==>
            r.response.Unhandled? && r.state.bans == s.bans)
  {
    if userId !in s.users then
      Step(Sent(NotFound, "User does not exist"), s)
    else
      var user := s.users[userId];
      if user.role == AdminRole then
        Step(Sent(BadRequest, "Cannot ban an admin"), s)
      else if !user.isActive then
        UpdateKeepsValid(s, userId, user.(isActive := true));
        UpdateFrame(s.users, userId, user.(isActive := true));
        Step(Sent(Ok, "User unbanned successfully"),
             s.(users := s.users[userId := user.(isActive := true)]))
      else
        UpdateFrame(s.users, userId, user.(isActive := false));
        BanActiveUser(s, userId, reason, now)
  }

  /**
   * The ban branch of `banUser`: the user is deactivated first, then the record
   * is validated and saved.
   */
  function BanActiveUser(s: DbState, userId: UserId, reason: Option<string>, now: int): (r: Step)
    requires ValidState(s) && userId in s.users
    ensures ValidState(r.state)
    ensures r.state.nextId == s.nextId
    ensures r.state.users == s.users[userId := s.users[userId].(isActive := false)]
    ensures reason != Some("") ==>
      r.response == Sent(Ok, "User banned successfully") && r.state.bans == s.bans + [NewBanRecord(userId, reason, now)]
    ensures reason == Some("") ==> r.response.Unhandled? && r.state.bans == s.bans
  {
    var user := s.users[userId];
    UpdateKeepsValid(s, userId, user.(isActive := false));
    var deactivated := s.(users := s.users[userId := user.(isActive := false)]);
    var record := NewBanRecord(userId, reason, now);
    NewBanRecordValid(userId, reason, now);
    if !ValidBanRecord(record) then
      Step(Unhandled("ValidationError: reason is required"), deactivated)
    else
      AppendBanKeepsValid(deactivated, record);
      Step(Sent(Ok, "User banned successfully"), deactivated.(bans := deactivated.bans + [record]))
  }

  method BanUser(db: Database, userId: UserId, reason: Option<string>, now: int) returns (res: Response)
    requires db.Valid()
    modifies db
    ensures db.Valid()
    ensures Step(res, db.State()) == BanUserStep(old(db.State()), userId, reason, now)
  {
    ghost var before := db.State();
    ghost var after := BanUserStep(before, userId, reason, now);
    if userId !in db.users {
      return Sent(NotFound, "User does not exist");
    }
    var user := db.users[userId];
    if user.role == AdminRole {
      return Sent(BadRequest, "Cannot ban an admin");
    }
    if !user.isActive {
      db.users := db.users[userId := user.(isActive := true)];
      assert db.State() == after.state;
      return Sent(Ok, "User unbanned successfully");
    }
    db.users := db.users[userId := user.(isActive := false)];
    var record := NewBanRecord(userId, reason, now);
    if !ValidBanRecord(record) {
      assert db.State() == after.state;
      return Unhandled("ValidationError: reason is required");
    }
    db.bans := db.bans + [record];
    assert db.State() == after.state;
    return Sent(Ok, "User banned successfully");
  }

  /**
   * Banning and then unbanning an active user restores the users table exactly,
   * and the ledger keeps the one record of the ban.
   */
  lemma BanThenUnban(s: DbState, userId: UserId, reason: Option<string>, t1: int, t2: int)
    requires ValidState(s)
    requires userId in s.users && s.users[userId].role != AdminRole && s.users[userId].isActive
    requires reason != Some("")
    ensures
      var first := BanUserStep(s, userId, reason, t1);
      var second := BanUserStep(first.state, userId, reason, t2);
      && first.response == Sent(Ok, "User banned successfully")
      && second.response == Sent(Ok, "User unbanned successfully")
      && second.state.users == s.users
      && second.state.bans == s.bans + [NewBanRecord(userId, reason, t1)]
  {
    var user := s.users[userId];
    BanDeactivates(s, userId, reason, t1);
    var first := BanUserStep(s, userId, reason, t1);
    UnbanReactivates(first.state, userId, reason, t2);
    RestoreEntry(s.users, userId, user.(isActive := false));
  }

  /** Applied to an active non-admin with a non-empty reason, `banUser` deactivates it and records the ban. */
  lemma BanDeactivates(s: DbState, userId: UserId, reason: Option<string>, now: int)
    requires ValidState(s) && userId in s.users
    requires s.users[userId].role != AdminRole && s.users[userId].isActive && reason != Some("")
    ensures BanUserStep(s, userId, reason, now) ==
      Step(Sent(Ok, "User banned successfully"),
           DbState(s.users[userId := s.users[userId].(isActive := false)], s.bans + [NewBanRecord(userId, reason, now)],
                   s.nextId))
  {
  }

  /** Applied to a deactivated non-admin, `banUser` reactivates it and touches nothing else. */
  lemma UnbanReactivates(s: DbState, userId: UserId, reason: Option<string>, now: int)
    requires ValidState(s) && userId in s.users
    requires s.users[userId].role != AdminRole && !s.users[userId].isActive
    ensures BanUserStep(s, userId, reason, now) ==
      Step(Sent(Ok, "User unbanned successfully"), s.(users := s.users[userId := s.users[userId].(isActive := true)]))
  {
  }

  /**
   * A ban takes effect on the banned user's next request: whatever the outcome of
   * banning an active user, a token for that user no longer passes `auth`.
   */
  lemma BanEndsSession(s: DbState, userId: UserId, reason: Option<string>, now: int,
                       cookies: map<string, string>, verify: string -> Verified)
    requires ValidState(s)
    requires userId in s.users && s.users[userId].role != AdminRole && s.users[userId].isActive
    requires HasToken(cookies) && verify(cookies[TokenCookie]) == Decoded(userId)
    ensures Authenticate(BanUserStep(s, userId, reason, now).state.users, cookies, verify)
         == Halt(Unauthorized, "this user is banned")
  {
  }

  /** A user whose role changes can still be banned exactly when the new role is not "admin". */
  lemma PromotionProtectsFromBan(s: DbState, userId: UserId, newRole: string, reason: Option<string>, now: int)
    requires ValidState(s)
    requires ChangeRoleStep(s, userId, newRole).response.status == Ok
    ensures
      var promoted := ChangeRoleStep(s, userId, newRole).state;
      (BanUserStep(promoted, userId, reason, now) == Step(Sent(BadRequest, "Cannot ban an admin"), promoted))
      <==> newRole == "admin"
  {
    var promoted := ChangeRoleStep(s, userId, newRole).state;
    assert RoleName(promoted.users[userId].role) == newRole;
  }
}
