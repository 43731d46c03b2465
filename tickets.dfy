/**
 * `core/ticket_system.py`: role- and ownership-scoped operations over the
 * `tickets` table. Each SQL statement is a function on the table's rows; the
 * class `TicketSystem` applies them to the shared database under the session's guards.
 */
module Tickets {
  import opened Wrappers
  import opened Text
  import opened Models
  import opened Database
  import opened Auth

  /** The two signalled authorisation failures. */
  datatype AuthError = NotAuthenticated | Forbidden

  // ---------------------------------------------------------------------------
  // The join with `users`

  /**
   * What a `LEFT JOIN users ... ON ... = u.id` column holds: a name exactly
   * when some user has that id, and then the full name of such a user.
   */
  ghost predicate NameOf(users: seq<UserRow>, id: int, name: Option<string>)
  {
    && (name.Some? <==> exists j :: 0 <= j < |users| && users[j].id == id)
    && (name.Some? ==> exists j :: 0 <= j < |users| && users[j].id == id && users[j].fullName == name.value)
  }

  /** `LEFT JOIN users u ON ... = u.id`: the full name of the first user with that id. */
  function FullNameOf(users: seq<UserRow>, id: int): (r: Option<string>)
    ensures NameOf(users, id, r)
    decreases |users|
  {
    if |users| == 0 then None
    else if users[0].id == id then Some(users[0].fullName)
    else
      var r := FullNameOf(users[1..], id);
      assert forall j :: 1 <= j < |users| ==> users[j] == users[1..][j - 1];
      r
  }

  /**
   * A joined record carries its row's nine columns unchanged, the creator's
   * name as the join finds it, and an assignee's name only when one is assigned.
   */
  ghost predicate JoinedFrom(users: seq<UserRow>, t: TicketRow, r: TicketWithRelations)
  {
    && r.id == t.id && r.title == t.title && r.description == t.description
    && r.status == t.status && r.priority == t.priority && r.createdBy == t.createdBy
    && r.assignedTo == t.assignedTo && r.createdAt == t.createdAt && r.updatedAt == t.updatedAt
    && NameOf(users, t.createdBy, r.createdByName)
    && (t.assignedTo.None? ==> r.assignedToName.None?)
    && (t.assignedTo.Some? ==> NameOf(users, t.assignedTo.value, r.assignedToName))
  }

  /** One result row of the ticket queries: the ticket with both display names. */
  function Join(users: seq<UserRow>, t: TicketRow): (r: TicketWithRelations)
    ensures JoinedFrom(users, t, r)
  {
    TicketWithRelations(t.id, t.title, t.description, t.status, t.priority, t.createdBy,
      t.assignedTo, t.createdAt, t.updatedAt, FullNameOf(users, t.createdBy),
      if t.assignedTo.Some? then FullNameOf(users, t.assignedTo.value) else None)
  }

  /** The joined rows of a query, in the order of `rows`. */
  function JoinAll(users: seq<UserRow>, rows: seq<TicketRow>): seq<TicketWithRelations>
  {
    seq(|rows|, i requires 0 <= i < |rows| => Join(users, rows[i]))
  }

  // ---------------------------------------------------------------------------
  // Visibility

  /** Support sees every ticket; anyone else only the tickets they created. */
  predicate VisibleTo(t: TicketRow, u: User)
  {
    u.role == RoleSupport || t.createdBy == u.id
  }

  /** The rows the `WHERE` clause of `get_all_tickets` keeps, in table order. */
  function Visible(rows: seq<TicketRow>, u: User): seq<TicketRow>
    decreases |rows|
  {
    if |rows| == 0 then []
    else
      var last := rows[|rows| - 1];
      Visible(rows[..|rows| - 1], u) + (if VisibleTo(last, u) then [last] else [])
  }

  /** A row is visible exactly when it is in the table and the session may see it. */
  lemma {:induction false} VisibleIff(rows: seq<TicketRow>, u: User, t: TicketRow)
    ensures t in Visible(rows, u) <==> t in rows && VisibleTo(t, u)
    decreases |rows|
  {
    if |rows| > 0 {
      var init := rows[..|rows| - 1];
      VisibleIff(init, u, t);
      assert rows == init + [rows[|rows| - 1]];
    }
  }

  /** A support session sees the whole table. */
  lemma {:induction false} SupportSeesAll(rows: seq<TicketRow>, u: User)
    requires u.role == RoleSupport
    ensures Visible(rows, u) == rows
    decreases |rows|
  {
    if |rows| > 0 {
      var init, last := rows[..|rows| - 1], rows[|rows| - 1];
      SupportSeesAll(init, u);
      assert VisibleTo(last, u);
      assert Visible(rows, u) == init + [last];
      assert rows == init + [last];
    }
  }

  /**
   * A ticket is listed for its creator, and never for a different user without
   * the support role.
   */
  lemma OwnTicketsOnly(rows: seq<TicketRow>, t: TicketRow, creator: User, other: User)
    requires t in rows && t.createdBy == creator.id
    requires other.id != creator.id && other.role != RoleSupport
    ensures t in Visible(rows, creator)
    ensures t !in Visible(rows, other)
  {
    VisibleIff(rows, creator, t);
    VisibleIff(rows, other, t);
  }

  // ---------------------------------------------------------------------------
  // ORDER BY CASE priority ... END, created_at DESC

  /** The `CASE priority WHEN 'high' THEN 1 WHEN 'medium' THEN 2 WHEN 'low' THEN 3 END` rank. */
  function Rank(p: Priority): int
  {
    match p
    case High => 1
    case Medium => 2
    case Low => 3
  }

  /** `a` may come before `b`: lower rank first, newer `created_at` first within a rank. */
  predicate InOrder(a: TicketWithRelations, b: TicketWithRelations)
  {
    Rank(a.priority) < Rank(b.priority)
    || (Rank(a.priority) == Rank(b.priority) && TextLe(b.createdAt, a.createdAt))
  }

  ghost predicate Sorted(s: seq<TicketWithRelations>)
  {
    forall i, j :: 0 <= i < j < |s| ==> InOrder(s[i], s[j])
  }

  lemma InOrderTotal(a: TicketWithRelations, b: TicketWithRelations)
    ensures InOrder(a, b) || InOrder(b, a)
  {
    TextLeTotal(a.createdAt, b.createdAt);
  }

  lemma InOrderTransitive(a: TicketWithRelations, b: TicketWithRelations, c: TicketWithRelations)
    requires InOrder(a, b) && InOrder(b, c)
    ensures InOrder(a, c)
  {
    if Rank(a.priority) == Rank(b.priority) == Rank(c.priority) {
      TextLeTransitive(c.createdAt, b.createdAt, a.createdAt);
    }
  }

  /** Puts `x` before the first element it may precede. */
  function InsertSorted(s: seq<TicketWithRelations>, x: TicketWithRelations): seq<TicketWithRelations>
    decreases |s|
  {
    if |s| == 0 then [x]
    else if InOrder(x, s[0]) then [x] + s
    else [s[0]] + InsertSorted(s[1..], x)
  }

  /** Inserting into a sorted sequence keeps it sorted and adds exactly `x`. */
  lemma {:induction false} InsertSortedSorted(s: seq<TicketWithRelations>, x: TicketWithRelations)
    requires Sorted(s)
    ensures Sorted(InsertSorted(s, x))
    ensures multiset(InsertSorted(s, x)) == multiset(s) + multiset{x}
    decreases |s|
  {
    if |s| == 0 {
    } else if InOrder(x, s[0]) {
      var r := [x] + s;
      forall i, j | 0 <= i < j < |r| ensures InOrder(r[i], r[j]) {
        if i == 0 && j > 1 {
          InOrderTransitive(x, s[0], s[j - 1]);
        }
      }
    } else {
      InOrderTotal(x, s[0]);
      var tail := InsertSorted(s[1..], x);
      InsertSortedSorted(s[1..], x);
      assert s == [s[0]] + s[1..];
      var r := [s[0]] + tail;
      forall i, j | 0 <= i < j < |r| ensures InOrder(r[i], r[j]) {
        if i == 0 {
          assert r[j] in multiset(tail);
          assert r[j] == x || r[j] in multiset(s[1..]);
          if r[j] != x {
            var k :| 0 <= k < |s[1..]| && s[1..][k] == r[j];
            assert InOrder(s[0], s[k + 1]);
          }
        }
      }
    }
  }

  // ---------------------------------------------------------------------------
  // WHERE t.id = ? [AND t.created_by = ?]

  /** The first row with that id that the session may see. */
  function FindVisible(rows: seq<TicketRow>, id: int, u: User): Option<TicketRow>
    decreases |rows|
  {
    if |rows| == 0 then None
    else if rows[0].id == id && VisibleTo(rows[0], u) then Some(rows[0])
    else FindVisible(rows[1..], id, u)
  }

  /**
   * `get_ticket` finds a row exactly when one with that id exists and the
   * session may see it; "missing" and "not yours" both give `None`.
   */
  lemma {:induction false} FindVisibleIff(rows: seq<TicketRow>, id: int, u: User)
    ensures FindVisible(rows, id, u).Some? <==>
            exists i :: 0 <= i < |rows| && rows[i].id == id && VisibleTo(rows[i], u)
    ensures FindVisible(rows, id, u).Some? ==>
            FindVisible(rows, id, u).value in rows && FindVisible(rows, id, u).value.id == id
    decreases |rows|
  {
    if |rows| > 0 && !(rows[0].id == id && VisibleTo(rows[0], u)) {
      FindVisibleIff(rows[1..], id, u);
      if exists i :: 0 <= i < |rows| && rows[i].id == id && VisibleTo(rows[i], u) {
        var i :| 0 <= i < |rows| && rows[i].id == id && VisibleTo(rows[i], u);
        assert rows[1..][i - 1] == rows[i];
      }
    }
  }

  // ---------------------------------------------------------------------------
  // UPDATE tickets SET ... WHERE id = ?

  /** The two `UPDATE` statements of the repository. */
  datatype Update =
    | SetStatus(status: string, now: string)       // update_ticket_status
    | AssignTo(userId: int, now: string)           // assign_ticket

  /** The `SET` clause applied to one row. */
  function Apply(u: Update, t: TicketRow): TicketRow
  {
    match u
    case SetStatus(s, now) => t.(status := s, updatedAt := now)
    case AssignTo(userId, now) => t.(assignedTo := Some(userId), updatedAt := now, status := StatusInProgress)
  }

  /** What the statements never touch: id, title, description, priority, creator, created_at. */
  predicate SameIdentity(a: TicketRow, b: TicketRow)
  {
    a.id == b.id && a.title == b.title && a.description == b.description
    && a.priority == b.priority && a.createdBy == b.createdBy && a.createdAt == b.createdAt
  }

  /** `UPDATE tickets SET ... WHERE id = ?`. */
  function UpdateById(rows: seq<TicketRow>, id: int, u: Update): seq<TicketRow>
    decreases |rows|
  {
    if |rows| == 0 then []
    else [if rows[0].id == id then Apply(u, rows[0]) else rows[0]] + UpdateById(rows[1..], id, u)
  }

  /**
   * The update rewrites the rows with that id and no other; an absent id is a
   * silent no-op.
   */
  lemma {:induction false} UpdateByIdEffect(rows: seq<TicketRow>, id: int, u: Update)
    ensures |UpdateById(rows, id, u)| == |rows|
    ensures forall i :: 0 <= i < |rows| ==>
      UpdateById(rows, id, u)[i] == if rows[i].id == id then Apply(u, rows[i]) else rows[i]
    ensures (forall i :: 0 <= i < |rows| ==> rows[i].id != id) ==> UpdateById(rows, id, u) == rows
    decreases |rows|
  {
    if |rows| > 0 {
      UpdateByIdEffect(rows[1..], id, u);
      var r := UpdateById(rows, id, u);
      forall i | 0 < i < |rows|
        ensures r[i] == if rows[i].id == id then Apply(u, rows[i]) else rows[i]
      {
        assert r[i] == UpdateById(rows[1..], id, u)[i - 1];
      }
    }
  }

  /**
   * `update_ticket_status` changes only `status` and `updated_at`; `assign_ticket`
   * only `assigned_to`, `updated_at` and `status`, which becomes `in_progress`.
   */
  lemma ApplyChangesOnly(u: Update, t: TicketRow)
    ensures SameIdentity(Apply(u, t), t)
    ensures u.SetStatus? ==> Apply(u, t) == t.(status := u.status, updatedAt := u.now)
    ensures u.AssignTo? ==> Apply(u, t).assignedTo == Some(u.userId)
                            && Apply(u, t).status == StatusInProgress && Apply(u, t).updatedAt == u.now
                            && Apply(u, t).title == t.title
  {
  }

  /** Updates keep ids in place, so the table stays valid. */
  lemma UpdateByIdValid(t: TicketTable, id: int, u: Update)
    requires TicketsValid(t)
    ensures TicketsValid(TicketTable(UpdateById(t.rows, id, u), t.lastId))
  {
    UpdateByIdEffect(t.rows, id, u);
  }

  // ---------------------------------------------------------------------------
  // DELETE FROM tickets WHERE id = ? [AND created_by = ?]

  /** The `WHERE` clause of `delete_ticket`: `owner` is `None` for support. */
  predicate DeleteMatches(t: TicketRow, id: int, owner: Option<int>)
  {
    t.id == id && (owner.None? || t.createdBy == owner.value)
  }

  function DeleteWhere(rows: seq<TicketRow>, id: int, owner: Option<int>): seq<TicketRow>
    decreases |rows|
  {
    if |rows| == 0 then []
    else
      var last := rows[|rows| - 1];
      DeleteWhere(rows[..|rows| - 1], id, owner) + (if DeleteMatches(last, id, owner) then [] else [last])
  }

  /** Exactly the matching rows disappear; the others stay. */
  lemma {:induction false} DeleteWhereMembers(rows: seq<TicketRow>, id: int, owner: Option<int>, t: TicketRow)
    ensures t in DeleteWhere(rows, id, owner) <==> t in rows && !DeleteMatches(t, id, owner)
    decreases |rows|
  {
    if |rows| > 0 {
      var init := rows[..|rows| - 1];
      DeleteWhereMembers(init, id, owner, t);
      assert rows == init + [rows[|rows| - 1]];
    }
  }

  /** The rows left keep their order, so ids still increase; nothing is added. */
  lemma {:induction false} DeleteWhereOrdered(rows: seq<TicketRow>, id: int, owner: Option<int>)
    requires IdsIncreasing(rows)
    ensures IdsIncreasing(DeleteWhere(rows, id, owner))
    ensures |DeleteWhere(rows, id, owner)| <= |rows|
    decreases |rows|
  {
    if |rows| > 0 {
      var init := rows[..|rows| - 1];
      var last := rows[|rows| - 1];
      DeleteWhereOrdered(init, id, owner);
      var d := DeleteWhere(init, id, owner);
      forall k | 0 <= k < |d| ensures d[k].id < last.id {
        DeleteWhereMembers(init, id, owner, d[k]);
        var m :| 0 <= m < |init| && init[m] == d[k];
      }
    }
  }

  /** When no row matches (a missing id, or someone else's ticket), nothing is deleted. */
  lemma {:induction false} DeleteNothingMatches(rows: seq<TicketRow>, id: int, owner: Option<int>)
    requires forall i :: 0 <= i < |rows| ==> !DeleteMatches(rows[i], id, owner)
    ensures DeleteWhere(rows, id, owner) == rows
    decreases |rows|
  {
    if |rows| > 0 {
      DeleteNothingMatches(rows[..|rows| - 1], id, owner);
      assert rows == rows[..|rows| - 1] + [rows[|rows| - 1]];
    }
  }

  /** With unique ids, deleting an existing matching ticket removes one row. */
  lemma {:induction false} DeleteRemovesOne(rows: seq<TicketRow>, id: int, owner: Option<int>, k: nat)
    requires IdsIncreasing(rows) && k < |rows| && DeleteMatches(rows[k], id, owner)
    ensures |DeleteWhere(rows, id, owner)| == |rows| - 1
    decreases |rows|
  {
    var init := rows[..|rows| - 1];
    if k == |rows| - 1 {
      DeleteNothingMatches(init, id, owner);
    } else {
      DeleteRemovesOne(init, id, owner, k);
    }
  }

  /** One more table row: the visible list grows by its joined form exactly when it is visible. */
  lemma VisibleJoinStep(users: seq<UserRow>, rows: seq<TicketRow>, i: nat, u: User)
    requires i < |rows|
    ensures multiset(JoinAll(users, Visible(rows[..i + 1], u))) ==
            multiset(JoinAll(users, Visible(rows[..i], u)))
            + (if VisibleTo(rows[i], u) then multiset{Join(users, rows[i])} else multiset{})
  {
    var p := rows[..i + 1];
    assert p[..|p| - 1] == rows[..i] && p[|p| - 1] == rows[i];
    var before := Visible(rows[..i], u);
    assert Visible(p, u) == before + (if VisibleTo(rows[i], u) then [rows[i]] else []);
    if VisibleTo(rows[i], u) {
      assert JoinAll(users, before + [rows[i]]) == JoinAll(users, before) + [Join(users, rows[i])];
    } else {
      assert Visible(p, u) == before;
    }
  }

  // ---------------------------------------------------------------------------
  // The repository

  /** `TicketSystem`: the ticket operations, guarded by the shared session. */
  class TicketSystem {
    const db: DatabaseConnection
    const auth: AuthManager

    ghost predicate Valid()
      reads this, db, auth
    {
      auth.db == db && auth.Valid()
    }

    constructor (db: DatabaseConnection, auth: AuthManager)
      requires auth.db == db && auth.Valid()
      ensures Valid() && this.db == db && this.auth == auth
    {
      this.db := db;
      this.auth := auth;
    }

    /**
     * `add_ticket`: without a session it raises and the table is unchanged;
     * otherwise one row is inserted for the current user and its fresh id returned.
     */
    method AddTicket(title: string, description: string, now: string, priority: Priority := Medium)
      returns (r: Result<int, AuthError>)
      requires Valid()
      modifies db
      ensures Valid()
      ensures db.users == old(db.users)
      ensures !auth.IsAuthenticated() ==> r == Failure(NotAuthenticated) && db.tickets == old(db.tickets)
      ensures auth.IsAuthenticated() ==>
        && r == Success(old(db.tickets.lastId) + 1)
        && db.tickets == InsertTicket(old(db.tickets), title, description, priority, auth.currentUser.value.id, now)
    {
      if !auth.IsAuthenticated() {
        return Failure(NotAuthenticated);
      }
      InsertTicketValid(db.tickets, title, description, priority, auth.currentUser.value.id, now);
      db.tickets := InsertTicket(db.tickets, title, description, priority, auth.currentUser.value.id, now);
      r := Success(db.tickets.lastId);
    }

    /**
     * `get_all_tickets`: the visible tickets joined with their names, ordered by
     * priority rank and then newest first.
     */
    method GetAllTickets() returns (r: seq<TicketWithRelations>)
      requires Valid() && auth.IsAuthenticated()
      ensures Sorted(r)
      ensures multiset(r) == multiset(JoinAll(db.users.rows, Visible(db.tickets.rows, auth.currentUser.value)))
    {
      var u := auth.currentUser.value;
      var rows := db.tickets.rows;
      var users := db.users.rows;
      r := [];
      var i := 0;
      while i < |rows|
        invariant 0 <= i <= |rows|
        invariant Sorted(r)
        invariant multiset(r) == multiset(JoinAll(users, Visible(rows[..i], u)))
      {
        VisibleJoinStep(users, rows, i, u);
        if VisibleTo(rows[i], u) {
          InsertSortedSorted(r, Join(users, rows[i]));
          r := InsertSorted(r, Join(users, rows[i]));
        }
        i := i + 1;
      }
      assert rows[..i] == rows;
    }

    /** `get_ticket`. */
    function GetTicket(ticketId: int): (r: Option<TicketWithRelations>)
      reads this, db, auth
      requires Valid() && auth.IsAuthenticated()
      ensures r.Some? <==> exists i :: 0 <= i < |db.tickets.rows| && db.tickets.rows[i].id == ticketId
                                      && VisibleTo(db.tickets.rows[i], auth.currentUser.value)
      ensures r.Some? ==> r.value.id == ticketId
                          && exists t :: t in db.tickets.rows && r.value == Join(db.users.rows, t)
    {
      FindVisibleIff(db.tickets.rows, ticketId, auth.currentUser.value);
      match FindVisible(db.tickets.rows, ticketId, auth.currentUser.value)
      case None => None
      case Some(t) => Some(Join(db.users.rows, t))
    }

    /** `update_ticket_status`: needs a session, but neither ownership nor a role. */
    method UpdateTicketStatus(ticketId: int, status: string, now: string) returns (r: Outcome<AuthError>)
      requires Valid()
      modifies db
      ensures Valid()
      ensures db.users == old(db.users)
      ensures !auth.IsAuthenticated() ==> r == Fail(NotAuthenticated) && db.tickets == old(db.tickets)
      ensures auth.IsAuthenticated() ==> (r == Pass
        && db.tickets == TicketTable(UpdateById(old(db.tickets.rows), ticketId, SetStatus(status, now)), old(db.tickets.lastId)))
    {
      if !auth.IsAuthenticated() {
        return Fail(NotAuthenticated);
      }
      UpdateByIdValid(db.tickets, ticketId, SetStatus(status, now));
      db.tickets := TicketTable(UpdateById(db.tickets.rows, ticketId, SetStatus(status, now)), db.tickets.lastId);
      r := Pass;
    }

    /** `assign_ticket`: only support; anyone else gets `Forbidden` and no change. */
    method AssignTicket(ticketId: int, userId: int, now: string) returns (r: Outcome<AuthError>)
      requires Valid()
      modifies db
      ensures Valid()
      ensures db.users == old(db.users)
      ensures !auth.IsSupport() ==> r == Fail(Forbidden) && db.tickets == old(db.tickets)
      ensures auth.IsSupport() ==> (r == Pass
        && db.tickets == TicketTable(UpdateById(old(db.tickets.rows), ticketId, AssignTo(userId, now)), old(db.tickets.lastId)))
    {
      if !auth.IsSupport() {
        return Fail(Forbidden);
      }
      UpdateByIdValid(db.tickets, ticketId, AssignTo(userId, now));
      db.tickets := TicketTable(UpdateById(db.tickets.rows, ticketId, AssignTo(userId, now)), db.tickets.lastId);
      r := Pass;
    }

    /**
     * `delete_ticket`: needs a session; support deletes by id, anyone else only
     * their own ticket, and a miss is silent.
     */
    method DeleteTicket(ticketId: int) returns (r: Outcome<AuthError>)
      requires Valid()
      modifies db
      ensures Valid()
      ensures db.users == old(db.users)
      ensures !auth.IsAuthenticated() ==> r == Fail(NotAuthenticated) && db.tickets == old(db.tickets)
      ensures auth.IsAuthenticated() ==> (r == Pass
        && db.tickets == TicketTable(
             DeleteWhere(old(db.tickets.rows), ticketId,
                         if auth.IsSupport() then None else Some(auth.currentUser.value.id)),
             old(db.tickets.lastId)))
    {
      if !auth.IsAuthenticated() {
        return Fail(NotAuthenticated);
      }
      var owner := if auth.IsSupport() then None else Some(auth.currentUser.value.id);
      DeleteWhereOrdered(db.tickets.rows, ticketId, owner);
      var left := DeleteWhere(db.tickets.rows, ticketId, owner);
      forall k | 0 <= k < |left| ensures 0 < left[k].id <= db.tickets.lastId {
        DeleteWhereMembers(db.tickets.rows, ticketId, owner, left[k]);
      }
      db.tickets := TicketTable(DeleteWhere(db.tickets.rows, ticketId, owner), db.tickets.lastId);
      r := Pass;
    }
  }
}
