/**
 * The two collections the controllers share: the users table and the ledger of
 * ban records, as a value (`DbState`) for specifications and as an object
 * (`Database`) whose fields the handlers update in place.
 */
module Store {
  import opened Http
  import opened UserModel
  import opened BannedModel

  datatype DbState = DbState(users: map<UserId, User>, bans: seq<BanRecord>, nextId: UserId)

  /** What a state-changing handler produces: its response and the store afterwards. */
  datatype Step = Step(response: Response, state: DbState)

  predicate EmailsUnique(users: map<UserId, User>) {
    forall a, b :: a in users && b in users && users[a].email == users[b].email ==> a == b
  }

  predicate UsernamesUnique(users: map<UserId, User>) {
    forall a, b :: a in users && b in users && users[a].username == users[b].username ==> a == b
  }

  /**
   * The invariant the handlers keep: stored users meet the schema, the two unique
   * indexes hold, every ban record is valid, names a stored user and was not
   * updated before it was created (a timestamp invariant, not a validator), and
   * ids below `nextId` are the only ones in use.
   */
  predicate ValidState(s: DbState) {
    && (forall id :: id in s.users ==> id < s.nextId && StoredUserOk(s.users[id]))
    && EmailsUnique(s.users)
    && UsernamesUnique(s.users)
    && (forall i :: 0 <= i < |s.bans| ==>
          s.bans[i].userId in s.users && ValidBanRecord(s.bans[i]) && s.bans[i].createdAt <= s.bans[i].updatedAt)
  }

  /** Some stored user has this (already lower-cased) email. */
  predicate EmailTaken(users: map<UserId, User>, email: string) {
    exists id :: id in users && users[id].email == email
  }

  predicate UsernameTaken(users: map<UserId, User>, username: string) {
    exists id :: id in users && users[id].username == username
  }

  /** Replacing a stored user by one that keeps username and email, and still meets the schema, keeps the invariant. */
  lemma {:induction false} UpdateKeepsValid(s: DbState, id: UserId, u: User)
    requires ValidState(s) && id in s.users
    requires u.username == s.users[id].username && u.email == s.users[id].email
    ensures ValidState(s.(users := s.users[id := u]))
  {
    var t := s.(users := s.users[id := u]);
    UpdateFrame(s.users, id, u);
    assert StoredUserOk(u) by {
      assert StoredUserOk(s.users[id]);
    }
    forall a | a in t.users ensures a < t.nextId && StoredUserOk(t.users[a]) {
      if a != id {
        assert t.users[a] == s.users[a];
      }
    }
    forall a, b | a in t.users && b in t.users && t.users[a].email == t.users[b].email
      ensures a == b
    {
      assert s.users[a].email == t.users[a].email && s.users[b].email == t.users[b].email;
    }
    forall a, b | a in t.users && b in t.users && t.users[a].username == t.users[b].username
      ensures a == b
    {
      assert s.users[a].username == t.users[a].username && s.users[b].username == t.users[b].username;
    }
  }

  /** Updating one key of the users table leaves the key set and every other entry alone. */
  lemma UpdateFrame(users: map<UserId, User>, id: UserId, u: User)
    requires id in users
    ensures users[id := u].Keys == users.Keys
    ensures forall other :: other in users && other != id ==> users[id := u][other] == users[other]
  {
  }

  /** Writing an entry and then writing back its old value gives the original table. */
  lemma RestoreEntry(users: map<UserId, User>, id: UserId, u: User)
    requires id in users
    ensures users[id := u][id := users[id]] == users
  {
  }

  /** Appending a valid record for a stored user keeps the invariant. */
  lemma {:induction false} AppendBanKeepsValid(s: DbState, b: BanRecord)
    requires ValidState(s) && b.userId in s.users && ValidBanRecord(b) && b.createdAt <= b.updatedAt
    ensures ValidState(s.(bans := s.bans + [b]))
  {
    var t := s.(bans := s.bans + [b]);
    forall i | 0 <= i < |t.bans|
      ensures t.bans[i].userId in t.users && ValidBanRecord(t.bans[i]) && t.bans[i].createdAt <= t.bans[i].updatedAt
    {
      if i < |s.bans| {
        assert t.bans[i] == s.bans[i];
      }
    }
  }

  class Database {
    var users: map<UserId, User>
    var bans: seq<BanRecord>
    var nextId: UserId

    function State(): DbState
      reads this
    {
      DbState(users, bans, nextId)
    }

    predicate Valid()
      reads this
    {
      ValidState(State())
    }

    /** A fresh database: no users, no ban records. */
    constructor ()
      ensures Valid() && users == map[] && bans == []
    {
      users := map[];
      bans := [];
      nextId := 0;
    }
  }
}
