# Ticket tracker: access rules, ticket repository and data export in Dafny

The system is a small console help-desk. Users register and log in. A logged-in
user files tickets, and support staff see, assign and close everyone's tickets.
Everything is stored in two SQLite tables, `users` and `tickets`. An exporter
dumps a table, with one level of foreign-key expansion, as JSON, CSV, XML and YAML.

This project models the parts of the system that carry the logic:

- **Database** (`database.dfy`, from `database/connection.py`):
  - The two tables are values with their AUTOINCREMENT counter (`lastId`, the largest id ever issued).
  - Each table has a validity invariant: ids are positive, at most the counter and increasing in row order; usernames are unique.
  - First-run seeding adds the two default accounts.
  - The `DatabaseConnection` class holds both tables. Its `HashPassword` applies the library digest `sha256`, a fixed function field whose results are 64-digit lower-case hex strings.
- **Records** (`models.dfy`, from `database/models.py`):
  - `User`, with no password digest.
  - `TicketWithRelations`, whose two name fields default to `None`. `Ticket` is a synonym because it has the same fields.
  - `to_dict` as an insertion-ordered dictionary, with its inverse `FromDict`.
- **Session** (`auth.py`'s model in `auth.dfy`): the class `AuthManager` has a nullable `currentUser`, plus authentication, registration, login and logout.
- **Tickets** (`tickets.dfy`, from `core/ticket_system.py`):
  - The class `TicketSystem`.
  - Each SQL statement becomes a function on the ticket sequence:
    - a visibility filter (support sees all, anyone else only their own tickets);
    - an insertion sort by priority rank, then newest `created_at` first;
    - a single-row update;
    - a conditional delete.
  - Missing authorisation is an error result. "Not found" and "not yours" are silent.
- **Export data** (`exporter.dfy`, from `export/exporter.py`):
  - A table snapshot (column names, rows, foreign keys) turns into one record per row. Each foreign key that resolves adds a nested mapping named after the referenced table.
  - The CSV flattening produces a sorted header over plain and `key_subkey` names, with one row of cells per record.
- **Manual XML** (`xml.dfy`, from `export/exporter.py`):
  - `_safe_string` escapes with the five predefined entities of section 4.6 of XML 1.0 (Fifth Edition).
  - The manual XML writer is modelled as the list of strings it writes.
- **Display helpers** (`display.dfy`, from `ui/display.py`):
  - `truncate_text`, using Python's slice semantics for a negative end;
  - `format_status` and `format_priority`.

Python dictionaries are modelled as insertion-ordered sequences of pairs (`pydict.dfy`). Assigning to an existing key keeps its position; a new key is appended.

Clock readings (`datetime.now().isoformat()`) are passed in as string parameters. Timestamps compare in code-point order, which is how SQLite's default collation orders ISO-format text.

## Model

| member | source | states |
|---|---|---|
| Database.DatabaseConnection.constructor | src/main/python/database/connection.py:16-48 | a fresh database has both tables empty with counters at 0, and is valid |
| Database.DatabaseConnection.InitDatabase | src/main/python/database/connection.py:16-53 | `CREATE TABLE IF NOT EXISTS` keeps existing rows; then the users table is seeded; tickets unchanged; validity kept |
| Database.DatabaseConnection.CreateDefaultUsers | src/main/python/database/connection.py:59-86 | the users table becomes `SeedDefaultUsers` of the old one; tickets unchanged; validity kept |
| Database.SeedEmpty | src/main/python/database/connection.py:65-79 | seeding an empty table yields exactly two rows: `user` with the first digest and role `user`, then `support` with the second digest and role `support`; the table is valid (the class passes the digests of `user123` and `support123`) |
| Database.SeedIdempotent | src/main/python/database/connection.py:65-66 | when users exist seeding changes nothing, so seeding twice equals seeding once |
| Database.DatabaseConnection.HashPassword | src/main/python/database/connection.py:55-57 | the digest is 64 lower-case hex digits, and the same password always gives the same digest |
| Database.InsertUserValid | src/main/python/database/connection.py:22-31 | inserting a username not yet present keeps ids positive, increasing and within the counter, and usernames unique; the new id is used by no row |
| Database.InsertUserRow | src/main/python/core/auth.py:46-56 | registration appends exactly one row with the next id and the given digest, role and name; earlier rows stay; the counter grows; the new id exceeds every existing id |
| Database.InsertTicketValid | src/main/python/database/connection.py:34-48 | inserting a ticket keeps the table valid and gives it an id no row has |
| Database.InsertTicketRow | src/main/python/core/ticket_system.py:22-33 | exactly one row appended: given title, description, priority and creator, status `open`, no assignee, `created_at == updated_at`; its id is the new counter and above every existing id |
| Models.ToDict | src/main/python/database/models.py:45-57 | the keys are exactly the eleven field names, in order |
| Models.ToDictFields | src/main/python/database/models.py:45-57 | the keys are distinct and each maps to the field of the same name (optional ones to null when absent) |
| Models.ToDictRoundTrip | src/main/python/database/models.py:32-57 | reading the dictionary back gives the original record, so no field is lost |
| PyDict.FromZipExact | src/main/python/export/exporter.py:122 | `dict(zip(ks, vs))` with distinct keys and equal lengths is exactly the pairs in column order |
| PyDict.KeysSet | src/main/python/export/exporter.py:136 | assigning a key keeps the key order if present and appends it otherwise |
| PyDict.GetSet | src/main/python/export/exporter.py:136 | after assigning `k`, reading `k` gives the new value and every other key reads as before |
| Auth.FindByCredentialsIff | src/main/python/core/auth.py:21-32 | the lookup finds a user iff some row has that username and digest; the user found is such a row without its digest |
| Auth.WrongPasswordLooksUnknown | src/main/python/core/auth.py:30-32 | with unique usernames, a wrong password for an existing user gives the same `None` as an unknown username |
| Auth.AuthManager.constructor | src/main/python/core/auth.py:10-12 | the session starts logged out |
| Auth.AuthManager.AuthenticateUser | src/main/python/core/auth.py:14-32 | a user is returned iff a row matches username and `hash(password)`; the returned user has that username and is a stored row |
| Auth.AuthManager.RegisterUser | src/main/python/core/auth.py:34-63 | `True` iff the username was free; then exactly the insertion with the password's digest (role defaults to `user`), else the users table is unchanged; tickets unchanged; validity kept |
| Auth.AuthManager.Login | src/main/python/core/auth.py:65-71 | succeeds iff authentication does; on success the session is the matched user, on failure it is unchanged |
| Auth.AuthManager.Logout | src/main/python/core/auth.py:73-79 | afterwards no one is authenticated |
| Auth.AuthManager.IsAuthenticated | src/main/python/core/auth.py:77-79 | when someone is logged in and the session invariant holds, the session user is a stored user |
| Auth.AuthManager.IsSupport | src/main/python/core/auth.py:81-83 | support implies authenticated, and is exactly a logged-in user with role `support` |
| Tickets.FullNameOf | src/main/python/core/ticket_system.py:47-48 | the LEFT JOIN gives a name exactly when some user has that id, and then the full name of such a user |
| Tickets.Join | src/main/python/core/ticket_system.py:43-48 | a joined record keeps its row's nine columns; the creator name is what the join finds for `created_by`; the assignee name is absent when nobody is assigned and otherwise what the join finds |
| Tickets.VisibleIff | src/main/python/core/ticket_system.py:40-74 | a ticket is visible iff it is stored and the user is support or its creator |
| Tickets.SupportSeesAll | src/main/python/core/ticket_system.py:40-56 | support sees every ticket, in table order |
| Tickets.OwnTicketsOnly | src/main/python/core/ticket_system.py:57-74 | a non-support user sees their own tickets and not another user's |
| Tickets.InOrderTotal | src/main/python/core/ticket_system.py:49-55 | any two tickets are comparable in the rank-then-newest order |
| Tickets.InOrderTransitive | src/main/python/core/ticket_system.py:49-55 | the rank-then-newest order is transitive |
| Tickets.InsertSortedSorted | src/main/python/core/ticket_system.py:49-55 | inserting into a sorted list keeps it sorted and adds exactly that element |
| Tickets.FindVisibleIff | src/main/python/core/ticket_system.py:90-116 | the lookup finds a ticket iff a row has that id and is visible to the user; the found row has that id |
| Tickets.UpdateByIdEffect | src/main/python/core/ticket_system.py:128-132 | same length; the row with that id is updated and every other row kept; an absent id changes nothing |
| Tickets.ApplyChangesOnly | src/main/python/core/ticket_system.py:128-151 | a status update changes only `status` and `updated_at`; an assignment sets `assigned_to`, status `in_progress` and `updated_at`; id, title, description, priority, creator and creation time never change |
| Tickets.UpdateByIdValid | src/main/python/core/ticket_system.py:128-132 | updates keep the ticket table valid |
| Tickets.DeleteWhereMembers | src/main/python/core/ticket_system.py:164-168 | a ticket survives the delete iff it was stored and does not match the id (and, for non-support, the creator) |
| Tickets.DeleteWhereOrdered | src/main/python/core/ticket_system.py:164-168 | deleting keeps ids increasing and never adds rows |
| Tickets.DeleteNothingMatches | src/main/python/core/ticket_system.py:164-168 | when no row matches the table is unchanged, with no error |
| Tickets.DeleteRemovesOne | src/main/python/core/ticket_system.py:164-168 | when a row matches exactly one row goes |
| Tickets.TicketSystem.constructor | src/main/python/core/ticket_system.py:10-12 | the repository shares the session's database |
| Tickets.TicketSystem.AddTicket | src/main/python/core/ticket_system.py:14-33 | no session: `NotAuthenticated` and tickets unchanged; otherwise the table is the insertion for the current user and the result is the new id |
| Tickets.TicketSystem.GetAllTickets | src/main/python/core/ticket_system.py:35-83 | the result is sorted by rank then newest first and is, as a multiset, exactly the visible tickets joined with their names |
| Tickets.TicketSystem.GetTicket | src/main/python/core/ticket_system.py:85-116 | some ticket iff a row has that id and is visible; the result has that id and is that row joined |
| Tickets.TicketSystem.UpdateTicketStatus | src/main/python/core/ticket_system.py:118-135 | no session: `NotAuthenticated`, nothing changes; otherwise the single-row status update, counter and users unchanged |
| Tickets.TicketSystem.AssignTicket | src/main/python/core/ticket_system.py:137-154 | not support: `Forbidden`, nothing changes; support: the single-row assignment, counter and users unchanged |
| Tickets.TicketSystem.DeleteTicket | src/main/python/core/ticket_system.py:156-170 | no session: `NotAuthenticated`, nothing changes; support deletes by id, others only their own; counter unchanged so ids are not reused |
| Exporter.IndexOf | src/main/python/export/exporter.py:72 | the `id` column is the first column with that name, and is missing exactly when no column has it |
| Exporter.FirstRowWith | src/main/python/export/exporter.py:72-73 | nothing is found exactly when no row holds the key in its `id` column; otherwise the first row that does |
| Exporter.GetRelatedData | src/main/python/export/exporter.py:67-86 | a missing table or `id` column raises; otherwise, when some row holds the key in its `id` column, the result is the first such row zipped with the table's columns, and when none does it is `{}` |
| Exporter.GetTableDataWithRelations | src/main/python/export/exporter.py:103-141 | the nested loops compute exactly `TableDataWithRelations`, including its failures |
| Exporter.ExpandRow | src/main/python/export/exporter.py:125-136 | the loop over the foreign keys of one row computes exactly `AddRelations`, stopping at the first lookup that fails |
| Exporter.RowsShape | src/main/python/export/exporter.py:120-138 | one record per row, in row order, each the expansion of its own row |
| Exporter.RowRecordExact | src/main/python/export/exporter.py:122 | before expansion a record is exactly the column/value pairs |
| Exporter.AddRelationsKeepsOthers | src/main/python/export/exporter.py:125-136 | a key that is no referenced table's name keeps its value through the expansion |
| Exporter.ResolveStable | src/main/python/export/exporter.py:125-136 | when no key column is named like a referenced table, every key resolves against the row's own values, so nested data is never expanded further |
| Exporter.LastResolvedWins | src/main/python/export/exporter.py:135-136 | of several keys into the same table, the last one that resolves provides the nested entry |
| Exporter.UnresolvedAddsNothing | src/main/python/export/exporter.py:129-133 | if no key into a table resolves, the record has no new entry under that table's name |
| Exporter.NullNeverResolves | src/main/python/export/exporter.py:129 | a NULL key column adds nothing |
| Exporter.ResolveFound | src/main/python/export/exporter.py:129-136 | a non-null key that some row of the referenced table holds in its `id` column resolves to the first such row, zipped with that table's columns |
| Exporter.ResolveMissing | src/main/python/export/exporter.py:72-77 | a non-null key that no row of the referenced table holds in its `id` column adds nothing to the record |
| Exporter.FlattenKeys | src/main/python/export/exporter.py:174-182 | a flattened record's keys are exactly its plain keys plus `key_subkey` per nested key |
| Exporter.FlatKeysInHeader | src/main/python/export/exporter.py:160-184 | every flattened row's keys are header columns |
| Exporter.CsvRow | src/main/python/export/exporter.py:171-184 | one cell per header column: a column the flattened row has holds a value stored under that key; any other column is empty |
| Exporter.CsvRows | src/main/python/export/exporter.py:174-184 | the row loop writes one row of cells per record, in order, each the `CsvRow` of that record flattened |
| Exporter.CollectKeys | src/main/python/export/exporter.py:160-168 | the loops collect exactly the union of all records' column names |
| Exporter.SortKeys | src/main/python/export/exporter.py:171 | the header is strictly increasing and holds exactly the collected names |
| Exporter.FlattenRecord | src/main/python/export/exporter.py:176-182 | the loops build exactly the flattened record |
| Exporter.ExportToCsv | src/main/python/export/exporter.py:152-186 | no data gives no file; otherwise a strictly sorted header of exactly all names and one row of cells per record, in order |
| XmlExport.EscapeIsCharwise | src/main/python/export/exporter.py:275-277 | the chain of replaces, `&` first, equals escaping each character once |
| XmlExport.EscapeEachNoMarkup | src/main/python/export/exporter.py:275-277 | escaped text contains none of `<`, `>`, `"` and `'` |
| XmlExport.UnescapeEscapeEach | src/main/python/export/exporter.py:275-277 | un-escaping escaped text gives back the original |
| XmlExport.SafeString | src/main/python/export/exporter.py:267-277 | the output never contains `<`, `>`, `"` or `'`; an integer is written as its `str` unchanged |
| XmlExport.SafeStringRoundTrip | src/main/python/export/exporter.py:274-277 | a text value comes back by un-escaping its output |
| XmlExport.ExportToXmlManual | src/main/python/export/exporter.py:231-265 | the strings written are exactly `XmlLines` |
| XmlExport.WriteRecord | src/main/python/export/exporter.py:245-260 | the lines written for one record are exactly `RecordLines` |
| XmlExport.WriteRelation | src/main/python/export/exporter.py:251-253 | the child lines of a nested mapping are exactly `SubLines` |
| XmlExport.WriteField | src/main/python/export/exporter.py:247-258 | the lines written for one field are exactly `FieldLines`: a relation block for a nested mapping, one element otherwise |
| XmlExport.SubLinesAt | src/main/python/export/exporter.py:251-253 | a nested mapping gives one child line per entry, the i-th line for the i-th entry |
| XmlExport.OneRecordPerRow | src/main/python/export/exporter.py:240-263 | the document has one `<record>` and one `</record>` line per record, and the root's `total_records` is the number of records, read back as that number |
| XmlExport.RelationElement | src/main/python/export/exporter.py:248-254 | a nested mapping is an element marked `type="relation"` holding one child element per sub-field, in order |
| Display.TruncateText | src/main/python/ui/display.py:82-86 | a fitting text is unchanged; otherwise a prefix of it followed by `..`; for widths of 2 or more the result is exactly the width; below 2 it is wider |
| Display.FormatStatus | src/main/python/ui/display.py:129-137 | at most six characters |
| Display.StatusLabelsDistinct | src/main/python/ui/display.py:131-136 | the four known statuses get four different labels |
| Display.OtherStatusShown | src/main/python/ui/display.py:137 | any other status shows as its first up-to-six characters upper-cased |
| Display.FormatPriority | src/main/python/ui/display.py:139-145 | at most four characters |
| Display.PriorityLabelsDistinct | src/main/python/ui/display.py:141-145 | the three priorities get three different labels |
| Display.OtherPriorityShown | src/main/python/ui/display.py:145 | any other priority text shows as its first up-to-four characters upper-cased |

## Left out

- SQLite itself is not modelled: connections, commits, `PRAGMA` introspection, `sqlite_master` and table names interpolated into SQL. Introspection results are inputs, namely the `Store` of column names, rows and foreign keys in the order listed.
- SHA-256 itself is not modelled: `DatabaseConnection.sha256` is an uninterpreted function field onto 64-digit hex strings. It is deterministic by construction, and nothing assumes it is injective.
- Clock readings are parameters, so no claim is made that `updated_at >= created_at`.
- Tickets.TicketSystem.GetAllTickets: requires a logged-in user, because the source dereferences `current_user.id` without one. Rows with equal rank and equal `created_at` may come in any order, as in SQL, so the contract states sortedness and the multiset rather than one sequence.
- Tickets.TicketSystem.GetTicket: requires a logged-in user, for the same reason.
- Priorities are the enumeration `high`/`medium`/`low`. The source stores any string, and an unknown one sorts with a NULL rank.
- Statuses are free text, as in the source.
- Auth.AuthManager.RegisterUser: the `IntegrityError` and generic-exception branches are left out, because the model has no concurrent writer and no failing I/O. Both return `False` without changing the table.
- `str.upper()` is modelled by `Text.UpperChar` for `a`-`z` and for U+0430-U+045F (the basic Cyrillic lower-case letters) only. Every other character is left unchanged, although Python also upper-cases letters such as U+0491, U+0463, U+04D9 and `é`.
- Display.OtherStatusShown: case mappings that change the length of the text (`ß` to `SS`, `ﬁ` to `FI`) are not modelled, so the lemma states one upper-cased character per input character, which Python's `status.upper()[:6]` does not give for such text.
- Display.OtherPriorityShown: the same holds for `priority.upper()[:4]`.
- `_export_to_json`, `_export_to_yaml`, the ElementTree/minidom writer `_export_to_xml`, CSV cell quoting and all file writes are library or I/O behaviour. `_export_to_xml` re-escapes text that `_safe_string` has already escaped, and only the manual writer's text is modelled.
- `export_table_data`, `get_table_structure`, `get_foreign_keys`, `list_tables` and `_ensure_output_dir` are SQL or file-system glue.
- A record holding a nested mapping bound as an SQL parameter raises. It is modelled as the error `UnsupportedParameter`, and is only reachable when a key column is named like a referenced table.
- SQL type affinity is not modelled: a key value matches a referenced `id` only when equal as a value.
- Integer width is not modelled: ids are unbounded `int`s. Python's `sqlite3` raises `OverflowError` when an integer parameter is outside the signed 64-bit range (below -2^63 or at least 2^63). So `get_ticket`, `update_ticket_status`, `assign_ticket` and `delete_ticket` raise for such an id in the source. The model instead finds nothing, or changes nothing.
- Exporter.GetRelatedData: table and column names are compared exactly. SQLite matches them case-insensitively, so a foreign key declared as `REFERENCES Users(id)` against a table `users`, or a key column declared `ID`, finds rows in the source but gives `NoSuchTable` or `NoSuchColumn` in the model.
- Column values are NULL, integers, booleans or text. REAL and BLOB values are not modelled, although `list_tables` offers every table in the file for export.
- `ui/console_ui.py`, `main.py`, `utils/helpers.py`, `config.py`, `wrap_text` and the `print_*` functions of `ui/display.py` are interactive I/O and formatting, and are not part of this model.
