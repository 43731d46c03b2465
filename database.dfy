/**
 * `database/connection.py`: the two tables, their AUTOINCREMENT counters and
 * uniqueness, the first-run seeding of two accounts, and the password digest.
 */
module Database {
  import opened Wrappers
  import opened Models

  /** A row of `users`. */
  datatype UserRow = UserRow(
    id: int, username: string, passwordHash: string, role: string, fullName: string, createdAt: string)

  /** `SELECT id, username, role, full_name, created_at`: the row without its digest. */
  function ToUser(r: UserRow): User
  {
    User(r.id, r.username, r.role, r.fullName, r.createdAt)
  }

  /** The `users` table with its AUTOINCREMENT counter (the largest id ever handed out). */
  datatype UserTable = UserTable(rows: seq<UserRow>, lastId: int)

  /** `username TEXT UNIQUE`. */
  ghost predicate UniqueUsernames(rows: seq<UserRow>)
  {
    forall i, j :: 0 <= i < j < |rows| ==> rows[i].username != rows[j].username
  }

  /**
   * Ids are positive, at most the counter, and increase in row order (so no two
   * rows share one); usernames are unique.
   */
  ghost predicate UsersValid(t: UserTable)
  {
    && t.lastId >= 0
    && (forall i :: 0 <= i < |t.rows| ==> 0 < t.rows[i].id <= t.lastId)
    && (forall i, j :: 0 <= i < j < |t.rows| ==> t.rows[i].id < t.rows[j].id)
    && UniqueUsernames(t.rows)
  }

  /** `SELECT id FROM users WHERE username = ?` finds a row. */
  predicate UsernameTaken(rows: seq<UserRow>, username: string)
  {
    exists i | 0 <= i < |rows| :: rows[i].username == username
  }

  /** `INSERT INTO users`: the new row gets the next AUTOINCREMENT id. */
  function InsertUser(t: UserTable, username: string, digest: string, role: string,
                      fullName: string, now: string): UserTable
  {
    UserTable(t.rows + [UserRow(t.lastId + 1, username, digest, role, fullName, now)], t.lastId + 1)
  }

  /** Inserting a username not yet taken keeps the table valid, with a fresh id. */
  lemma InsertUserValid(t: UserTable, username: string, digest: string, role: string,
                        fullName: string, now: string)
    requires UsersValid(t) && !UsernameTaken(t.rows, username)
    ensures UsersValid(InsertUser(t, username, digest, role, fullName, now))
    ensures forall i :: 0 <= i < |t.rows| ==> t.rows[i].id != t.lastId + 1
  {
  }

  /** Registration adds exactly one row, at the end, carrying the given digest; earlier rows stay. */
  lemma InsertUserRow(t: UserTable, username: string, digest: string, role: string,
                      fullName: string, now: string)
    requires UsersValid(t)
    ensures var t2 := InsertUser(t, username, digest, role, fullName, now);
      && |t2.rows| == |t.rows| + 1
      && t2.rows[..|t.rows|] == t.rows
      && t2.rows[|t.rows|] == UserRow(t.lastId + 1, username, digest, role, fullName, now)
      && t2.lastId > t.lastId
      && forall i :: 0 <= i < |t.rows| ==> t.rows[i].id < t2.rows[|t.rows|].id
  {
    var t2 := InsertUser(t, username, digest, role, fullName, now);
    assert t2.rows[..|t.rows|] == t.rows;
  }

  const DefaultUserName: string := "Обычный пользователь"
  const DefaultSupportName: string := "Специалист поддержки"

  /**
   * `_create_default_users`: when `users` is empty, insert `user` and `support`
   * with the digests of their passwords `user123` and `support123`; otherwise
   * leave the table alone.
   */
  function SeedDefaultUsers(t: UserTable, userDigest: string, supportDigest: string,
                            now1: string, now2: string): UserTable
  {
    if |t.rows| == 0 then
      InsertUser(InsertUser(t, "user", userDigest, RoleUser, DefaultUserName, now1),
                 "support", supportDigest, RoleSupport, DefaultSupportName, now2)
    else t
  }

  /** Seeding an empty table yields exactly the two default accounts. */
  lemma SeedEmpty(t: UserTable, userDigest: string, supportDigest: string, now1: string, now2: string)
    requires UsersValid(t) && |t.rows| == 0
    ensures var s := SeedDefaultUsers(t, userDigest, supportDigest, now1, now2);
      && UsersValid(s)
      && |s.rows| == 2
      && s.rows[0].username == "user" && s.rows[0].passwordHash == userDigest
      && s.rows[0].role == RoleUser
      && s.rows[1].username == "support" && s.rows[1].passwordHash == supportDigest
      && s.rows[1].role == RoleSupport
  {
    var t1 := InsertUser(t, "user", userDigest, RoleUser, DefaultUserName, now1);
    InsertUserValid(t, "user", userDigest, RoleUser, DefaultUserName, now1);
    assert !UsernameTaken(t1.rows, "support") by {
      assert |t1.rows| == 1 && t1.rows[0].username == "user";
    }
    InsertUserValid(t1, "support", supportDigest, RoleSupport, DefaultSupportName, now2);
  }

  /** Once there are users, initialisation adds none: seeding twice is seeding once. */
  lemma SeedIdempotent(t: UserTable, userDigest: string, supportDigest: string,
                       now1: string, now2: string, now3: string, now4: string)
    ensures |t.rows| > 0 ==> SeedDefaultUsers(t, userDigest, supportDigest, now1, now2) == t
    ensures var s := SeedDefaultUsers(t, userDigest, supportDigest, now1, now2);
      SeedDefaultUsers(s, userDigest, supportDigest, now3, now4) == s
  {
  }

  /** A row of `tickets`. */
  datatype TicketRow = TicketRow(
    id: int,
    title: string,
    description: string,
    status: string,
    priority: Priority,
    createdBy: int,
    assignedTo: Option<int>,
    createdAt: string,
    updatedAt: string)

  /** The `tickets` table with its AUTOINCREMENT counter. */
  datatype TicketTable = TicketTable(rows: seq<TicketRow>, lastId: int)

  /** Ids are positive, at most the counter, and increase in row order. */
  ghost predicate IdsIncreasing(rows: seq<TicketRow>)
  {
    forall i, j :: 0 <= i < j < |rows| ==> rows[i].id < rows[j].id
  }

  ghost predicate TicketsValid(t: TicketTable)
  {
    && t.lastId >= 0
    && (forall i :: 0 <= i < |t.rows| ==> 0 < t.rows[i].id <= t.lastId)
    && IdsIncreasing(t.rows)
  }

  /**
   * `INSERT INTO tickets (title, description, priority, created_by, created_at,
   * updated_at)`: status takes its default `open` and `assigned_to` stays NULL.
   */
  function InsertTicket(t: TicketTable, title: string, description: string, priority: Priority,
                        createdBy: int, now: string): TicketTable
  {
    var row := TicketRow(t.lastId + 1, title, description, StatusOpen, priority, createdBy, None, now, now);
    TicketTable(t.rows + [row], t.lastId + 1)
  }

  /** The inserted ticket has an id no ticket in the table has, and the table stays valid. */
  lemma InsertTicketValid(t: TicketTable, title: string, description: string, priority: Priority,
                          createdBy: int, now: string)
    requires TicketsValid(t)
    ensures TicketsValid(InsertTicket(t, title, description, priority, createdBy, now))
    ensures forall i :: 0 <= i < |t.rows| ==> t.rows[i].id != t.lastId + 1
  {
  }

  /**
   * `add_ticket` adds exactly one row, at the end: the given title, description
   * and priority, the creator, status `open`, no assignee, and equal creation and
   * update times; its id is above every id the table has handed out.
   */
  lemma InsertTicketRow(t: TicketTable, title: string, description: string, priority: Priority,
                        createdBy: int, now: string)
    requires TicketsValid(t)
    ensures var t2 := InsertTicket(t, title, description, priority, createdBy, now);
      && |t2.rows| == |t.rows| + 1
      && t2.rows[..|t.rows|] == t.rows
      && var n := t2.rows[|t.rows|];
      && n.id == t2.lastId == t.lastId + 1
      && n.title == title && n.description == description && n.priority == priority
      && n.createdBy == createdBy && n.status == StatusOpen && n.assignedTo == None
      && n.createdAt == now && n.updatedAt == now
      && forall i :: 0 <= i < |t.rows| ==> t.rows[i].id < n.id
  {
    var t2 := InsertTicket(t, title, description, priority, createdBy, now);
    assert t2.rows[..|t.rows|] == t.rows;
  }

  /** A SHA-256 digest written as 64 lower-case hex digits. */
  predicate IsHexDigest(s: string)
  {
    |s| == 64 && forall i :: 0 <= i < |s| ==> s[i] in "0123456789abcdef"
  }

  type Digest = s: string | IsHexDigest(s) witness seq(64, _ => '0')

  /** `DatabaseConnection`: the store the access and ticket code run against. */
  class DatabaseConnection {
    /** `hashlib.sha256(...).hexdigest()` on the encoded password: a fixed function onto hex digests. */
    const sha256: string -> Digest
    var users: UserTable
    var tickets: TicketTable

    ghost predicate Valid()
      reads this
    {
      UsersValid(users) && TicketsValid(tickets)
    }

    /** A database file with both tables created and empty. */
    constructor (sha256: string -> Digest)
      ensures Valid() && this.sha256 == sha256
      ensures users == UserTable([], 0) && tickets == TicketTable([], 0)
    {
      this.sha256 := sha256;
      users := UserTable([], 0);
      tickets := TicketTable([], 0);
    }

    /** `_hash_password`: the same password always gives the same 64-digit lower-case hex digest. */
    function HashPassword(password: string): (d: string)
      ensures IsHexDigest(d)
    {
      sha256(password)
    }

    /**
     * `init_database`: the `CREATE TABLE IF NOT EXISTS` statements leave existing
     * tables alone; then the default accounts are seeded.
     */
    method InitDatabase(now1: string, now2: string)
      requires Valid()
      modifies this
      ensures Valid()
      ensures users == SeedDefaultUsers(old(users), HashPassword("user123"), HashPassword("support123"), now1, now2)
      ensures tickets == old(tickets)
    {
      CreateDefaultUsers(now1, now2);
    }

    /** `_create_default_users`; `now1` and `now2` are the two clock readings. */
    method CreateDefaultUsers(now1: string, now2: string)
      requires Valid()
      modifies this
      ensures Valid()
      ensures users == SeedDefaultUsers(old(users), HashPassword("user123"), HashPassword("support123"), now1, now2)
      ensures tickets == old(tickets)
    {
      if |users.rows| == 0 {
        SeedEmpty(users, HashPassword("user123"), HashPassword("support123"), now1, now2);
        users := InsertUser(users, "user", HashPassword("user123"), RoleUser, DefaultUserName, now1);
        users := InsertUser(users, "support", HashPassword("support123"), RoleSupport, DefaultSupportName, now2);
      }
    }
  }
}
