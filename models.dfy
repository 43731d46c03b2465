/**
 * The records of `database/models.py` and the column values they are built from.
 */
module Models {
  import opened Wrappers
  import opened PyDict

  /**
   * A column value as it reaches Python from SQLite: NULL, INTEGER or TEXT; `Bool`
   * is the Python `bool` that the XML writer also accepts.
   */
  datatype Scalar = Null | Int(i: int) | Text(s: string) | Bool(b: bool)

  /** Ticket priorities; the table stores them as the text `PriorityName`. */
  datatype Priority = High | Medium | Low

  function PriorityName(p: Priority): string
  {
    match p
    case High => "high"
    case Medium => "medium"
    case Low => "low"
  }

  function ParsePriority(s: string): Option<Priority>
  {
    if s == "high" then Some(High)
    else if s == "medium" then Some(Medium)
    else if s == "low" then Some(Low)
    else None
  }

  lemma PriorityNameRoundTrip(p: Priority)
    ensures ParsePriority(PriorityName(p)) == Some(p)
  {
  }

  /** Status texts written by the core (the column accepts any text). */
  const StatusOpen: string := "open"
  const StatusInProgress: string := "in_progress"
  const StatusResolved: string := "resolved"
  const StatusClosed: string := "closed"

  /** Role texts; only "support" grants anything. */
  const RoleUser: string := "user"
  const RoleSupport: string := "support"

  /** The `User` record: no password digest is carried. */
  datatype User = User(id: int, username: string, role: string, fullName: string, createdAt: string)

  /**
   * A ticket row joined with the display names of its creator and assignee;
   * both names default to `None` when not supplied.
   */
  datatype TicketWithRelations = TicketWithRelations(
    id: int,
    title: string,
    description: string,
    status: string,
    priority: Priority,
    createdBy: int,
    assignedTo: Option<int>,
    createdAt: string,
    updatedAt: string,
    createdByName: Option<string> := None,
    assignedToName: Option<string> := None)

  /** The `Ticket` record has exactly the fields and defaults of `TicketWithRelations`. */
  type Ticket = TicketWithRelations

  /** The eleven keys of `to_dict`, in order. */
  const TicketFields: seq<string> := [
    "id", "title", "description", "status", "priority", "created_by",
    "assigned_to", "created_at", "updated_at", "created_by_name", "assigned_to_name"]

  function OptInt(o: Option<int>): Scalar
  {
    match o
    case None => Null
    case Some(i) => Int(i)
  }

  function OptText(o: Option<string>): Scalar
  {
    match o
    case None => Null
    case Some(s) => Text(s)
  }

  /** `TicketWithRelations.to_dict`. */
  function ToDict(t: TicketWithRelations): (d: Dict<string, Scalar>)
    ensures Keys(d) == TicketFields
  {
    [("id", Int(t.id)),
     ("title", Text(t.title)),
     ("description", Text(t.description)),
     ("status", Text(t.status)),
     ("priority", Text(PriorityName(t.priority))),
     ("created_by", Int(t.createdBy)),
     ("assigned_to", OptInt(t.assignedTo)),
     ("created_at", Text(t.createdAt)),
     ("updated_at", Text(t.updatedAt)),
     ("created_by_name", OptText(t.createdByName)),
     ("assigned_to_name", OptText(t.assignedToName))]
  }

  function AsInt(o: Option<Scalar>): Option<int>
  {
    if o.Some? && o.value.Int? then Some(o.value.i) else None
  }

  function AsText(o: Option<Scalar>): Option<string>
  {
    if o.Some? && o.value.Text? then Some(o.value.s) else None
  }

  /** A nullable INTEGER: `Some(None)` for NULL. */
  function AsOptInt(o: Option<Scalar>): Option<Option<int>>
  {
    if o.Some? && o.value.Null? then Some(None)
    else if o.Some? && o.value.Int? then Some(Some(o.value.i))
    else None
  }

  /** A nullable TEXT: `Some(None)` for NULL. */
  function AsOptText(o: Option<Scalar>): Option<Option<string>>
  {
    if o.Some? && o.value.Null? then Some(None)
    else if o.Some? && o.value.Text? then Some(Some(o.value.s))
    else None
  }

  /** Reads a ticket back from a mapping shaped like the output of `ToDict`. */
  function FromDict(d: Dict<string, Scalar>): Option<TicketWithRelations>
  {
    var id := AsInt(Get(d, "id"));
    var title := AsText(Get(d, "title"));
    var description := AsText(Get(d, "description"));
    var status := AsText(Get(d, "status"));
    var priority := AsText(Get(d, "priority"));
    var createdBy := AsInt(Get(d, "created_by"));
    var assignedTo := AsOptInt(Get(d, "assigned_to"));
    var createdAt := AsText(Get(d, "created_at"));
    var updatedAt := AsText(Get(d, "updated_at"));
    var createdByName := AsOptText(Get(d, "created_by_name"));
    var assignedToName := AsOptText(Get(d, "assigned_to_name"));
    if id.Some? && title.Some? && description.Some? && status.Some? && priority.Some?
       && ParsePriority(priority.value).Some? && createdBy.Some? && assignedTo.Some?
       && createdAt.Some? && updatedAt.Some? && createdByName.Some? && assignedToName.Some?
    then
      Some(TicketWithRelations(id.value, title.value, description.value, status.value,
        ParsePriority(priority.value).value, createdBy.value, assignedTo.value,
        createdAt.value, updatedAt.value, createdByName.value, assignedToName.value))
    else None
  }

  lemma TicketFieldsDistinct()
    ensures forall i, j :: 0 <= i < j < |TicketFields| ==> TicketFields[i] != TicketFields[j]
  {
  }

  /** Each of the eleven keys of `to_dict` maps to the field of the same name. */
  lemma ToDictFields(t: TicketWithRelations)
    ensures DistinctKeys(ToDict(t))
    ensures Get(ToDict(t), "id") == Some(Int(t.id))
    ensures Get(ToDict(t), "title") == Some(Text(t.title))
    ensures Get(ToDict(t), "description") == Some(Text(t.description))
    ensures Get(ToDict(t), "status") == Some(Text(t.status))
    ensures Get(ToDict(t), "priority") == Some(Text(PriorityName(t.priority)))
    ensures Get(ToDict(t), "created_by") == Some(Int(t.createdBy))
    ensures Get(ToDict(t), "assigned_to") == Some(OptInt(t.assignedTo))
    ensures Get(ToDict(t), "created_at") == Some(Text(t.createdAt))
    ensures Get(ToDict(t), "updated_at") == Some(Text(t.updatedAt))
    ensures Get(ToDict(t), "created_by_name") == Some(OptText(t.createdByName))
    ensures Get(ToDict(t), "assigned_to_name") == Some(OptText(t.assignedToName))
  {
    var d := ToDict(t);
    TicketFieldsDistinct();
    assert forall i :: 0 <= i < |d| ==> d[i].0 == TicketFields[i];
    GetAt(d, 0); GetAt(d, 1); GetAt(d, 2); GetAt(d, 3); GetAt(d, 4); GetAt(d, 5);
    GetAt(d, 6); GetAt(d, 7); GetAt(d, 8); GetAt(d, 9); GetAt(d, 10);
  }

  /** `to_dict` loses nothing: the ticket can be read back from it. */
  lemma ToDictRoundTrip(t: TicketWithRelations)
    ensures FromDict(ToDict(t)) == Some(t)
  {
    ToDictFields(t);
    PriorityNameRoundTrip(t.priority);
    match t.assignedTo { case None => case Some(_) => }
    match t.createdByName { case None => case Some(_) => }
    match t.assignedToName { case None => case Some(_) => }
  }
}
