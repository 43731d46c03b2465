/**
 * `core/auth.py`: credential lookup, registration, and the single process-wide
 * session (`current_user`) with the two role guards derived from it.
 */
module Auth {
  import opened Wrappers
  import opened Models
  import opened Database

  /**
   * `SELECT ... FROM users WHERE username = ? AND password_hash = ?` with
   * `fetchone`: the first matching row, without its digest.
   */
  function FindByCredentials(rows: seq<UserRow>, username: string, digest: string): Option<User>
    decreases |rows|
  {
    if |rows| == 0 then None
    else if rows[0].username == username && rows[0].passwordHash == digest then Some(ToUser(rows[0]))
    else FindByCredentials(rows[1..], username, digest)
  }

  /** A row matches the username and the digest. */
  predicate Matches(r: UserRow, username: string, digest: string)
  {
    r.username == username && r.passwordHash == digest
  }

  /** A user comes back exactly when some row has that username and digest, and it is that row's user. */
  lemma {:induction false} FindByCredentialsIff(rows: seq<UserRow>, username: string, digest: string)
    ensures FindByCredentials(rows, username, digest).Some? <==>
            exists i :: 0 <= i < |rows| && Matches(rows[i], username, digest)
    ensures FindByCredentials(rows, username, digest).Some? ==>
            exists i :: 0 <= i < |rows| && Matches(rows[i], username, digest)
                        && FindByCredentials(rows, username, digest) == Some(ToUser(rows[i]))
    decreases |rows|
  {
    if |rows| > 0 && !Matches(rows[0], username, digest) {
      FindByCredentialsIff(rows[1..], username, digest);
      if exists i :: 0 <= i < |rows| && Matches(rows[i], username, digest) {
        var i :| 0 <= i < |rows| && Matches(rows[i], username, digest);
        assert Matches(rows[1..][i - 1], username, digest);
      }
      if FindByCredentials(rows[1..], username, digest).Some? {
        var i :| 0 <= i < |rows[1..]| && Matches(rows[1..][i], username, digest)
                 && FindByCredentials(rows[1..], username, digest) == Some(ToUser(rows[1..][i]));
        assert rows[i + 1] == rows[1..][i];
      }
    } else if |rows| > 0 {
      assert Matches(rows[0], username, digest);
    }
  }

  /**
   * A wrong password for an existing username gets the same `None` as an
   * unknown username: the caller cannot tell the two apart.
   */
  lemma WrongPasswordLooksUnknown(rows: seq<UserRow>, known: string, unknown: string, digest: string)
    requires UniqueUsernames(rows)
    requires exists i :: 0 <= i < |rows| && rows[i].username == known && rows[i].passwordHash != digest
    requires !UsernameTaken(rows, unknown)
    ensures FindByCredentials(rows, known, digest) == None
    ensures FindByCredentials(rows, unknown, digest) == None
  {
    FindByCredentialsIff(rows, known, digest);
    FindByCredentialsIff(rows, unknown, digest);
  }

  /** The user `u` is the digest-free view of some row. */
  ghost predicate HasRowFor(rows: seq<UserRow>, u: User)
  {
    exists i :: 0 <= i < |rows| && ToUser(rows[i]) == u
  }

  /** `AuthManager`: the session state over a database connection. */
  class AuthManager {
    const db: DatabaseConnection
    var currentUser: Option<User>

    /** The logged-in user, if any, is a row of `users`. */
    ghost predicate Valid()
      reads this, db
    {
      db.Valid() && (currentUser.Some? ==> HasRowFor(db.users.rows, currentUser.value))
    }

    constructor (db: DatabaseConnection)
      requires db.Valid()
      ensures Valid() && this.db == db && currentUser == None
    {
      this.db := db;
      currentUser := None;
    }

    /** `authenticate_user`. */
    function AuthenticateUser(username: string, password: string): (r: Option<User>)
      reads db
      ensures r.Some? <==> exists i :: 0 <= i < |db.users.rows| && Matches(db.users.rows[i], username, db.HashPassword(password))
      ensures r.Some? ==> r.value.username == username && HasRowFor(db.users.rows, r.value)
    {
      FindByCredentialsIff(db.users.rows, username, db.HashPassword(password));
      FindByCredentials(db.users.rows, username, db.HashPassword(password))
    }

    /**
     * `register_user`: `False` and no change when the username is taken; otherwise
     * one new row carrying the digest of the password, and `True`.
     */
    method RegisterUser(username: string, password: string, fullName: string, now: string,
                        role: string := RoleUser) returns (ok: bool)
      requires Valid()
      modifies db
      ensures Valid()
      ensures ok <==> !UsernameTaken(old(db.users.rows), username)
      ensures db.users == if ok then InsertUser(old(db.users), username, db.HashPassword(password), role, fullName, now)
                          else old(db.users)
      ensures db.tickets == old(db.tickets)
    {
      if UsernameTaken(db.users.rows, username) {
        return false;
      }
      InsertUserValid(db.users, username, db.HashPassword(password), role, fullName, now);
      ghost var before := db.users.rows;
      db.users := InsertUser(db.users, username, db.HashPassword(password), role, fullName, now);
      if currentUser.Some? {
        ghost var i :| 0 <= i < |before| && ToUser(before[i]) == currentUser.value;
        assert db.users.rows[i] == before[i];
      }
      return true;
    }

    /** `login`: on success the matched user becomes the session; on failure nothing changes. */
    method Login(username: string, password: string) returns (ok: bool)
      requires Valid()
      modifies this
      ensures Valid()
      ensures ok <==> AuthenticateUser(username, password).Some?
      ensures currentUser == if ok then AuthenticateUser(username, password) else old(currentUser)
    {
      var user := AuthenticateUser(username, password);
      if user.Some? {
        currentUser := user;
        return true;
      }
      return false;
    }

    /** `logout`. */
    method Logout()
      requires Valid()
      modifies this
      ensures Valid() && !IsAuthenticated()
    {
      currentUser := None;
    }

    /** `is_authenticated`: someone is logged in, and under the invariant that is a stored user. */
    predicate IsAuthenticated()
      reads this, db
      ensures IsAuthenticated() && Valid() ==> currentUser.Some? && HasRowFor(db.users.rows, currentUser.value)
    {
      currentUser.Some?
    }

    /** `is_support`: logged in with role "support"; so it implies `IsAuthenticated`. */
    predicate IsSupport()
      reads this, db
      ensures IsSupport() ==> IsAuthenticated()
    {
      IsAuthenticated() && currentUser.value.role == RoleSupport
    }
  }
}
