/**
 * The User schema (server/src/models/user.model.js): field constraints, defaults,
 * and the pre-save hook that hashes the password.
 */
module UserModel {
  import opened JsText
  import opened Optional

  /** A document id; the database hands out fresh ones. */
  type UserId = nat

  /** The `enum` of the `role` field. */
  datatype Role = AdminRole | UserRole | ModeratorRole

  /** The string the database stores for a role. */
  function RoleName(r: Role): string {
    match r
    case AdminRole => "admin"
    case UserRole => "user"
    case ModeratorRole => "moderator"
  }

  /** Casting a string to the `role` field: only the three enum values pass validation. */
  function ParseRole(s: string): (r: Option<Role>)
    ensures r.Some? ==> RoleName(r.value) == s
    ensures r.None? <==> s != "admin" && s != "user" && s != "moderator"
  {
    if s == "admin" then Some(AdminRole)
    else if s == "user" then Some(UserRole)
    else if s == "moderator" then Some(ModeratorRole)
    else None
  }

  /** Every role round-trips through its stored name. */
  lemma ParseRoleName(r: Role)
    ensures ParseRole(RoleName(r)) == Some(r)
  {
  }

  const MinUsernameLength: nat := 3
  const MaxUsernameLength: nat := 20
  const MinPasswordLength: nat := 8
  const MaxPasswordLength: nat := 100
  const DefaultProfilePic: string := "https://shorturl.at/Lx7ah"

  /**
   * A user document. `password` holds whatever the document currently carries:
   * the plaintext of a new document until the pre-save hook replaces it, the hash
   * once stored. Timestamps are not modelled.
   */
  datatype User = User(
    username: string,
    email: string,
    password: string,
    role: Role,
    isActive: bool,
    profilePic: string)

  /**
   * `new User({username, password, email})`: the schema's defaults fill role,
   * isActive and profilePic, and the `lowercase` setter lower-cases the email.
   */
  function NewUser(username: string, password: string, email: string): (u: User)
    ensures u.username == username && u.password == password
    ensures u.email == Lower(email) && IsLower(u.email)
    ensures u.role == UserRole && u.isActive && u.profilePic == DefaultProfilePic
  {
    User(username, Lower(email), password, UserRole, true, DefaultProfilePic)
  }

  /**
   * The schema's validators, run by `save()` before the pre-save hook: required
   * strings are non-empty, username and password lengths are bounded (in UTF-16
   * code units, as `minlength`/`maxlength` read `.length`), email is stored
   * lower-cased. The role enum holds by the type.
   */
  predicate ValidUser(u: User) {
    && MinUsernameLength <= Utf16Length(u.username) <= MaxUsernameLength
    && MinPasswordLength <= Utf16Length(u.password) <= MaxPasswordLength
    && |u.email| > 0
    && IsLower(u.email)
  }

  /** A new document passes validation exactly when its raw username, password and email meet the bounds. */
  lemma NewUserValid(username: string, password: string, email: string)
    ensures ValidUser(NewUser(username, password, email)) <==>
      && MinUsernameLength <= Utf16Length(username) <= MaxUsernameLength
      && MinPasswordLength <= Utf16Length(password) <= MaxPasswordLength
      && |email| > 0
  {
  }

  /**
   * Eleven emoji make a username of 22 code units: too long, although it has
   * only eleven characters.
   */
  lemma AstralUsernameTooLong(password: string, email: string)
    ensures var name := seq(11, _ => '\U{1F600}');
      |name| == 11 && !ValidUser(NewUser(name, password, email))
  {
    var name := seq(11, _ => '\U{1F600}');
    assert forall i :: 0 <= i < |name| ==> IsAstral(name[i]);
    Utf16LengthCountsAstral(name);
  }

  /**
   * What every stored user satisfies: the constraints on username and email. The
   * stored password is a hash, whose length the validators do not constrain again.
   */
  predicate StoredUserOk(u: User) {
    && MinUsernameLength <= Utf16Length(u.username) <= MaxUsernameLength
    && |u.email| > 0
    && IsLower(u.email)
  }

  lemma ValidUserStorable(u: User, hashed: string)
    requires ValidUser(u)
    ensures StoredUserOk(u.(password := hashed))
  {
  }

  /**
   * The in-memory document the pre-save hook runs on: its password and whether
   * that path was modified since the document was loaded or last saved. The other
   * fields are not touched by the hook and are left out of this class.
   */
  class UserDocument {
    var password: string
    var passwordModified: bool

    /** A document built with `new User({...})`: every path it was given counts as modified. */
    constructor (password: string)
      ensures this.password == password && passwordModified
    {
      this.password := password;
      passwordModified := true;
    }

    /**
     * The pre-save hook: a modified password is replaced by its hash, an
     * unmodified one is left alone. `hash` stands for bcrypt with a fresh salt.
     */
    method PreSave(hash: string -> string)
      modifies this
      ensures password == if old(passwordModified) then hash(old(password)) else old(password)
      ensures passwordModified == old(passwordModified)
    {
      if !passwordModified {
        return;
      }
      password := hash(password);
    }

    /** `save()`: run the hook, write the document, and clear its modified paths. */
    method Save(hash: string -> string)
      modifies this
      ensures password == if old(passwordModified) then hash(old(password)) else old(password)
      ensures !passwordModified
    {
      PreSave(hash);
      passwordModified := false;
    }
  }

  /** Saving a new document twice stores the hash of the plaintext, not a hash of the hash. */
  method SaveTwiceHashesOnce(plaintext: string, hash: string -> string) returns (stored: string)
    ensures stored == hash(plaintext)
  {
    var doc := new UserDocument(plaintext);
    doc.Save(hash);
    doc.Save(hash);
    stored := doc.password;
  }
}
