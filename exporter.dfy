/**
 * `export/exporter.py`, data side: the snapshot of one table with one level of
 * foreign-key expansion, and its flattening into CSV columns.
 */
module Exporter {
  import opened Wrappers
  import opened Text
  import opened PyDict
  import opened Models

  // ---------------------------------------------------------------------------
  // The store as schema introspection sees it

  /** One entry of `PRAGMA foreign_key_list`: column `from` references `table`(`to`). */
  datatype ForeignKey = ForeignKey(table: string, from: string, to: string)

  /**
   * A table: the column names of `PRAGMA table_info`, the rows of `SELECT *`
   * in scan order, and its foreign keys in the order introspection lists them.
   */
  datatype Table = Table(columns: seq<string>, rows: seq<seq<Scalar>>, foreignKeys: seq<ForeignKey>)

  type Store = map<string, Table>

  /** Failures the SQL statements raise. */
  datatype ExportError =
    | NoSuchTable(name: string)                     // "no such table"
    | NoSuchColumn(table: string, column: string)   // "no such column"
    | UnsupportedParameter                          // a mapping bound as an SQL parameter

  /** A value of an exported record: a column value, or a referenced row one level deep. */
  datatype Field = Plain(value: Scalar) | Nested(related: Dict<string, Scalar>)

  /** One exported record: column name (or referenced table name) to field, in insertion order. */
  type Record = Dict<string, Field>

  // ---------------------------------------------------------------------------
  // get_related_data

  /** Position of the first column called `name`; none when no column has that name. */
  function IndexOf(columns: seq<string>, name: string): (r: Option<nat>)
    ensures r.None? <==> name !in columns
    ensures r.Some? ==> r.value < |columns| && columns[r.value] == name
                        && forall j :: 0 <= j < r.value ==> columns[j] != name
    decreases |columns|
  {
    if |columns| == 0 then None
    else if columns[0] == name then Some(0)
    else
      assert forall j :: 1 <= j < |columns| ==> columns[j] == columns[1..][j - 1];
      match IndexOf(columns[1..], name)
      case None => None
      case Some(k) => Some(k + 1)
  }

  /** Column `idx` of `row` exists and holds `key`: the `WHERE id = ?` test. */
  predicate HasKey(row: seq<Scalar>, idx: nat, key: Scalar)
  {
    idx < |row| && row[idx] == key
  }

  /**
   * `WHERE id = ?` with `fetchone`: the first row whose column `idx` holds `key`;
   * none exactly when no row does.
   */
  function FirstRowWith(rows: seq<seq<Scalar>>, idx: nat, key: Scalar): (r: Option<seq<Scalar>>)
    ensures r.None? <==> forall i :: 0 <= i < |rows| ==> !HasKey(rows[i], idx, key)
    ensures r.Some? ==> exists i :: 0 <= i < |rows| && rows[i] == r.value && HasKey(rows[i], idx, key)
                                   && forall j :: 0 <= j < i ==> !HasKey(rows[j], idx, key)
    decreases |rows|
  {
    if |rows| == 0 then None
    else if HasKey(rows[0], idx, key) then Some(rows[0])
    else
      var r := FirstRowWith(rows[1..], idx, key);
      assert forall i :: 1 <= i < |rows| ==> rows[i] == rows[1..][i - 1];
      if r.Some? then
        var i :| 0 <= i < |rows[1..]| && rows[1..][i] == r.value && HasKey(rows[1..][i], idx, key)
                 && forall j :: 0 <= j < i ==> !HasKey(rows[1..][j], idx, key);
        assert rows[i + 1] == r.value && HasKey(rows[i + 1], idx, key);
        r
      else r
  }

  /**
   * `get_related_data`: the referenced row as column-to-value pairs, or the empty
   * mapping when no row has that id. A missing table or `id` column raises.
   */
  function GetRelatedData(store: Store, relatedTable: string, keyValue: Scalar): (r: Result<Dict<string, Scalar>, ExportError>)
    ensures relatedTable !in store ==> r == Failure(NoSuchTable(relatedTable))
    ensures relatedTable in store && "id" !in store[relatedTable].columns ==>
              r == Failure(NoSuchColumn(relatedTable, "id"))
    ensures relatedTable in store && "id" in store[relatedTable].columns ==>
              var t := store[relatedTable];
              var k := IndexOf(t.columns, "id").value;
              && r.Success?
              && ((forall i :: 0 <= i < |t.rows| ==> !HasKey(t.rows[i], k, keyValue)) ==> r.value == [])
              && (r.value != [] ==> exists i :: 0 <= i < |t.rows| && HasKey(t.rows[i], k, keyValue)
                                                && r.value == FromZip(t.columns, t.rows[i]))
              && ((exists i :: 0 <= i < |t.rows| && HasKey(t.rows[i], k, keyValue)) ==>
                    exists i :: && 0 <= i < |t.rows| && HasKey(t.rows[i], k, keyValue)
                                && (forall j :: 0 <= j < i ==> !HasKey(t.rows[j], k, keyValue))
                                && r.value == FromZip(t.columns, t.rows[i]))
  {
    if relatedTable !in store then Failure(NoSuchTable(relatedTable))
    else
      var t := store[relatedTable];
      match IndexOf(t.columns, "id")
      case None => Failure(NoSuchColumn(relatedTable, "id"))
      case Some(k) =>
        match FirstRowWith(t.rows, k, keyValue)
        case None => Success([])
        case Some(row) => Success(FromZip(t.columns, row))
  }

  // ---------------------------------------------------------------------------
  // _get_table_data_with_relations

  /** Every column value as a plain field. */
  function Plains(row: seq<Scalar>): seq<Field>
  {
    seq(|row|, i requires 0 <= i < |row| => Plain(row[i]))
  }

  /** `dict(zip(column_names, row))`. */
  function RowRecord(columns: seq<string>, row: seq<Scalar>): Record
  {
    FromZip(columns, Plains(row))
  }

  /**
   * What one foreign key contributes to a record: nothing when its column is
   * missing or NULL or the referenced row is not found (or has no columns),
   * otherwise the referenced row.
   */
  function Resolve(store: Store, d: Record, fk: ForeignKey): Result<Option<Dict<string, Scalar>>, ExportError>
  {
    var cur: Option<Field> := Get(d, fk.from);
    match cur
    case None => Success(None)
    case Some(Nested(_)) => Failure(UnsupportedParameter)
    case Some(Plain(v)) =>
      if v.Null? then Success(None)
      else match GetRelatedData(store, fk.table, v)
        case Failure(e) => Failure(e)
        case Success(rel) => Success(if |rel| == 0 then None else Some(rel))
  }

  /** `row_dict[related_table] = related_data` when the key resolves. */
  function ExpandOne(store: Store, d: Record, fk: ForeignKey): Result<Record, ExportError>
  {
    match Resolve(store, d, fk)
    case Failure(e) => Failure(e)
    case Success(None) => Success(d)
    case Success(Some(rel)) => Success(Set(d, fk.table, Nested(rel)))
  }

  /** The inner loop over the foreign keys, in the order given. */
  function AddRelations(store: Store, d: Record, fks: seq<ForeignKey>): Result<Record, ExportError>
    decreases |fks|
  {
    if |fks| == 0 then Success(d)
    else match AddRelations(store, d, fks[..|fks| - 1])
      case Failure(e) => Failure(e)
      case Success(d') => ExpandOne(store, d', fks[|fks| - 1])
  }

  /** The outer loop over the rows. */
  function RowsWithRelations(store: Store, columns: seq<string>, rows: seq<seq<Scalar>>,
                             fks: seq<ForeignKey>): Result<seq<Record>, ExportError>
    decreases |rows|
  {
    if |rows| == 0 then Success([])
    else match RowsWithRelations(store, columns, rows[..|rows| - 1], fks)
      case Failure(e) => Failure(e)
      case Success(data) =>
        match AddRelations(store, RowRecord(columns, rows[|rows| - 1]), fks)
        case Failure(e) => Failure(e)
        case Success(rec) => Success(data + [rec])
  }

  /** The records of `tableName`; `SELECT *` on a missing table raises. */
  function TableDataWithRelations(store: Store, tableName: string): Result<seq<Record>, ExportError>
  {
    if tableName !in store then Failure(NoSuchTable(tableName))
    else
      var t := store[tableName];
      RowsWithRelations(store, t.columns, t.rows, t.foreignKeys)
  }

  lemma AddRelationsFailurePersists(store: Store, d: Record, fks: seq<ForeignKey>, j: nat, e: ExportError)
    requires j <= |fks| && AddRelations(store, d, fks[..j]) == Failure(e)
    ensures AddRelations(store, d, fks) == Failure(e)
    decreases |fks| - j
  {
    if j < |fks| {
      assert fks[..j + 1][..j] == fks[..j];
      AddRelationsFailurePersists(store, d, fks, j + 1, e);
    } else {
      assert fks[..j] == fks;
    }
  }

  lemma RowsFailurePersists(store: Store, columns: seq<string>, rows: seq<seq<Scalar>>,
                            fks: seq<ForeignKey>, i: nat, e: ExportError)
    requires i <= |rows| && RowsWithRelations(store, columns, rows[..i], fks) == Failure(e)
    ensures RowsWithRelations(store, columns, rows, fks) == Failure(e)
    decreases |rows| - i
  {
    if i < |rows| {
      assert rows[..i + 1][..i] == rows[..i];
      RowsFailurePersists(store, columns, rows, fks, i + 1, e);
    } else {
      assert rows[..i] == rows;
    }
  }

  /** `_get_table_data_with_relations`, the outer loop over the rows. */
  method GetTableDataWithRelations(store: Store, tableName: string) returns (r: Result<seq<Record>, ExportError>)
    ensures r == TableDataWithRelations(store, tableName)
  {
    if tableName !in store {
      return Failure(NoSuchTable(tableName));
    }
    var t := store[tableName];
    var columns, rows, fks := t.columns, t.rows, t.foreignKeys;
    var data: seq<Record> := [];
    var i := 0;
    while i < |rows|
      invariant 0 <= i <= |rows|
      invariant RowsWithRelations(store, columns, rows[..i], fks) == Success(data)
    {
      ghost var prefix := rows[..i + 1];
      assert prefix[..i] == rows[..i] && prefix[i] == rows[i];
      var rowDict := ExpandRow(store, RowRecord(columns, rows[i]), fks);
      if rowDict.Failure? {
        assert RowsWithRelations(store, columns, prefix, fks) == Failure(rowDict.error);
        RowsFailurePersists(store, columns, rows, fks, i + 1, rowDict.error);
        return Failure(rowDict.error);
      }
      assert RowsWithRelations(store, columns, prefix, fks) == Success(data + [rowDict.value]);
      data := data + [rowDict.value];
      i := i + 1;
    }
    assert rows[..i] == rows;
    r := Success(data);
  }

  /** The inner loop over the foreign keys of one row. */
  method ExpandRow(store: Store, d: Record, fks: seq<ForeignKey>) returns (r: Result<Record, ExportError>)
    ensures r == AddRelations(store, d, fks)
  {
    var rowDict := d;
    var j := 0;
    while j < |fks|
      invariant 0 <= j <= |fks|
      invariant AddRelations(store, d, fks[..j]) == Success(rowDict)
    {
      assert fks[..j + 1][..j] == fks[..j];
      var step := ExpandOne(store, rowDict, fks[j]);
      if step.Failure? {
        AddRelationsFailurePersists(store, d, fks, j + 1, step.error);
        return Failure(step.error);
      }
      rowDict := step.value;
      j := j + 1;
    }
    assert fks[..j] == fks;
    r := Success(rowDict);
  }

  // ---------------------------------------------------------------------------
  // Properties of the gathered data

  /** One record per row, in row order, each built from its own row. */
  lemma {:induction false} RowsShape(store: Store, columns: seq<string>, rows: seq<seq<Scalar>>, fks: seq<ForeignKey>)
    requires RowsWithRelations(store, columns, rows, fks).Success?
    ensures var data := RowsWithRelations(store, columns, rows, fks).value;
      && |data| == |rows|
      && forall i :: 0 <= i < |rows| ==> AddRelations(store, RowRecord(columns, rows[i]), fks) == Success(data[i])
    decreases |rows|
  {
    if |rows| > 0 {
      var init := rows[..|rows| - 1];
      RowsShape(store, columns, init, fks);
      assert forall i :: 0 <= i < |init| ==> rows[i] == init[i];
    }
  }

  /** With distinct column names and full rows, a record starts as exactly the column/value pairs. */
  lemma RowRecordExact(columns: seq<string>, row: seq<Scalar>)
    requires |columns| == |row|
    requires forall i, j :: 0 <= i < j < |columns| ==> columns[i] != columns[j]
    ensures RowRecord(columns, row) == seq(|columns|, i requires 0 <= i < |columns| => (columns[i], Plain(row[i])))
  {
    FromZipExact(columns, Plains(row));
  }

  /** The names the expansion may add: the referenced tables. */
  ghost predicate NamesNoTable(fks: seq<ForeignKey>, k: string)
  {
    forall i :: 0 <= i < |fks| ==> fks[i].table != k
  }

  /** Keys that are no referenced table's name keep their values through the expansion. */
  lemma {:induction false} AddRelationsKeepsOthers(store: Store, d: Record, fks: seq<ForeignKey>, k: string)
    requires AddRelations(store, d, fks).Success? && NamesNoTable(fks, k)
    ensures Get(AddRelations(store, d, fks).value, k) == Get(d, k)
    decreases |fks|
  {
    if |fks| > 0 {
      var init := fks[..|fks| - 1];
      AddRelationsKeepsOthers(store, d, init, k);
      var d' := AddRelations(store, d, init).value;
      if Resolve(store, d', fks[|fks| - 1]).value.Some? {
        GetSet(d', fks[|fks| - 1].table, Nested(Resolve(store, d', fks[|fks| - 1]).value.value), k);
      }
    }
  }

  /** No foreign-key column is also the name of a referenced table (true of `tickets`). */
  ghost predicate NoChain(fks: seq<ForeignKey>)
  {
    forall i, j :: 0 <= i < |fks| && 0 <= j < |fks| ==> fks[i].from != fks[j].table
  }

  /** Under `NoChain`, every key resolves against the record as it came from the row. */
  lemma ResolveStable(store: Store, d: Record, fks: seq<ForeignKey>, j: nat)
    requires NoChain(fks) && j <= |fks| && AddRelations(store, d, fks[..j]).Success?
    ensures forall m :: 0 <= m < |fks| ==>
      Resolve(store, AddRelations(store, d, fks[..j]).value, fks[m]) == Resolve(store, d, fks[m])
  {
    forall m | 0 <= m < |fks|
      ensures Resolve(store, AddRelations(store, d, fks[..j]).value, fks[m]) == Resolve(store, d, fks[m])
    {
      AddRelationsKeepsOthers(store, d, fks[..j], fks[m].from);
    }
  }

  /**
   * The nested entry under a table's name comes from the last foreign key to that
   * table that resolves: a later key to the same table overwrites an earlier one.
   */
  lemma {:induction false} LastResolvedWins(store: Store, d: Record, fks: seq<ForeignKey>, j: nat,
                                            rel: Dict<string, Scalar>)
    requires NoChain(fks) && AddRelations(store, d, fks).Success?
    requires j < |fks| && Resolve(store, d, fks[j]) == Success(Some(rel))
    requires forall m :: j < m < |fks| && fks[m].table == fks[j].table ==> Resolve(store, d, fks[m]) == Success(None)
    ensures Get(AddRelations(store, d, fks).value, fks[j].table) == Some(Nested(rel))
    decreases |fks|
  {
    var n := |fks|;
    var init := fks[..n - 1];
    var last := fks[n - 1];
    assert fks[..n - 1] == init;
    assert NoChain(init);
    ResolveStable(store, d, fks, n - 1);
    var d' := AddRelations(store, d, init).value;
    if j == n - 1 {
      GetSet(d', last.table, Nested(rel), last.table);
    } else {
      LastResolvedWins(store, d, init, j, rel);
      if Resolve(store, d', last).value.Some? {
        GetSet(d', last.table, Nested(Resolve(store, d', last).value.value), fks[j].table);
      }
    }
  }

  /**
   * When no foreign key to table `k` resolves (NULL column, missing row), the
   * record's entry for `k` is what the row gave it.
   */
  lemma {:induction false} UnresolvedAddsNothing(store: Store, d: Record, fks: seq<ForeignKey>, k: string)
    requires NoChain(fks) && AddRelations(store, d, fks).Success?
    requires forall m :: 0 <= m < |fks| && fks[m].table == k ==> Resolve(store, d, fks[m]) == Success(None)
    ensures Get(AddRelations(store, d, fks).value, k) == Get(d, k)
    decreases |fks|
  {
    var n := |fks|;
    if n > 0 {
      var init := fks[..n - 1];
      var last := fks[n - 1];
      assert NoChain(init);
      ResolveStable(store, d, fks, n - 1);
      UnresolvedAddsNothing(store, d, init, k);
      var d' := AddRelations(store, d, init).value;
      if Resolve(store, d', last).value.Some? {
        GetSet(d', last.table, Nested(Resolve(store, d', last).value.value), k);
      }
    }
  }

  /** A NULL foreign-key column never resolves. */
  lemma NullNeverResolves(store: Store, d: Record, fk: ForeignKey)
    requires Get(d, fk.from) == Some(Plain(Null))
    ensures Resolve(store, d, fk) == Success(None)
  {
  }

  /** `k` is the position of the first column called `id`. */
  predicate IdColumn(columns: seq<string>, k: nat)
  {
    k < |columns| && columns[k] == "id" && forall j :: 0 <= j < k ==> columns[j] != "id"
  }

  lemma IndexOfId(columns: seq<string>, k: nat)
    requires IdColumn(columns, k)
    ensures IndexOf(columns, "id") == Some(k)
  {
    assert columns[k] == "id";
  }

  /**
   * A non-NULL key whose referenced table has a row with that value in its `id`
   * column resolves to the first such row, zipped with that table's columns.
   */
  lemma ResolveFound(store: Store, d: Record, fk: ForeignKey, v: Scalar, k: nat)
    requires Get(d, fk.from) == Some(Plain(v)) && !v.Null?
    requires fk.table in store && IdColumn(store[fk.table].columns, k)
    requires exists i :: 0 <= i < |store[fk.table].rows| && HasKey(store[fk.table].rows[i], k, v)
    ensures exists i :: && 0 <= i < |store[fk.table].rows| && HasKey(store[fk.table].rows[i], k, v)
                        && (forall j :: 0 <= j < i ==> !HasKey(store[fk.table].rows[j], k, v))
                        && Resolve(store, d, fk) == Success(Some(FromZip(store[fk.table].columns, store[fk.table].rows[i])))
  {
    var t := store[fk.table];
    IndexOfId(t.columns, k);
    var row := FirstRowWith(t.rows, k, v).value;
    var i :| 0 <= i < |t.rows| && t.rows[i] == row && HasKey(t.rows[i], k, v)
             && forall j :: 0 <= j < i ==> !HasKey(t.rows[j], k, v);
    var n := if |t.columns| < |row| then |t.columns| else |row|;
    KeysSet(FromZip(t.columns[..n - 1], row[..n - 1]), t.columns[n - 1], row[n - 1]);
  }

  /** A non-NULL key that no row of the referenced table holds in its `id` column adds nothing. */
  lemma ResolveMissing(store: Store, d: Record, fk: ForeignKey, v: Scalar, k: nat)
    requires Get(d, fk.from) == Some(Plain(v)) && !v.Null?
    requires fk.table in store && IdColumn(store[fk.table].columns, k)
    requires forall i :: 0 <= i < |store[fk.table].rows| ==> !HasKey(store[fk.table].rows[i], k, v)
    ensures Resolve(store, d, fk) == Success(None)
  {
    IndexOfId(store[fk.table].columns, k);
  }

  // ---------------------------------------------------------------------------
  // _export_to_csv

  /** The CSV column names one entry contributes: its key, or `key_subkey` per nested key. */
  function EntryKeys(e: (string, Field)): set<string>
  {
    match e.1
    case Plain(_) => {e.0}
    case Nested(sub) => set i | 0 <= i < |sub| :: e.0 + "_" + sub[i].0
  }

  function RecordKeys(r: Record): set<string>
    decreases |r|
  {
    if |r| == 0 then {} else RecordKeys(r[..|r| - 1]) + EntryKeys(r[|r| - 1])
  }

  /** `all_keys`: the union over all records. */
  function AllKeys(data: seq<Record>): set<string>
    decreases |data|
  {
    if |data| == 0 then {} else AllKeys(data[..|data| - 1]) + RecordKeys(data[|data| - 1])
  }

  /** `flat_row[f"{key}_{sub_key}"] = sub_value` for each nested pair. */
  function SetPrefixed(acc: Dict<string, Scalar>, key: string, sub: Dict<string, Scalar>): Dict<string, Scalar>
    decreases |sub|
  {
    if |sub| == 0 then acc
    else Set(SetPrefixed(acc, key, sub[..|sub| - 1]), key + "_" + sub[|sub| - 1].0, sub[|sub| - 1].1)
  }

  function FlattenEntry(acc: Dict<string, Scalar>, e: (string, Field)): Dict<string, Scalar>
  {
    match e.1
    case Plain(v) => Set(acc, e.0, v)
    case Nested(sub) => SetPrefixed(acc, e.0, sub)
  }

  /** `flat_row` for one record. */
  function Flatten(r: Record): Dict<string, Scalar>
    decreases |r|
  {
    if |r| == 0 then [] else FlattenEntry(Flatten(r[..|r| - 1]), r[|r| - 1])
  }

  lemma {:induction false} SetPrefixedKeys(acc: Dict<string, Scalar>, key: string, sub: Dict<string, Scalar>)
    ensures KeySet(SetPrefixed(acc, key, sub)) == KeySet(acc) + EntryKeys((key, Nested(sub)))
    decreases |sub|
  {
    if |sub| > 0 {
      var init := sub[..|sub| - 1];
      SetPrefixedKeys(acc, key, init);
      KeySetSet(SetPrefixed(acc, key, init), key + "_" + sub[|sub| - 1].0, sub[|sub| - 1].1);
      assert EntryKeys((key, Nested(sub))) == EntryKeys((key, Nested(init))) + {key + "_" + sub[|sub| - 1].0} by {
        assert forall i :: 0 <= i < |init| ==> init[i] == sub[i];
      }
    }
  }

  /** The flattened record has exactly the record's CSV column names as keys. */
  lemma {:induction false} FlattenKeys(r: Record)
    ensures KeySet(Flatten(r)) == RecordKeys(r)
    decreases |r|
  {
    if |r| > 0 {
      var init := r[..|r| - 1];
      var e := r[|r| - 1];
      FlattenKeys(init);
      match e.1
      case Plain(v) => KeySetSet(Flatten(init), e.0, v);
      case Nested(sub) => SetPrefixedKeys(Flatten(init), e.0, sub);
    }
  }

  lemma {:induction false} RecordKeysInAll(data: seq<Record>, i: nat)
    requires i < |data|
    ensures RecordKeys(data[i]) <= AllKeys(data)
    decreases |data|
  {
    if i < |data| - 1 {
      RecordKeysInAll(data[..|data| - 1], i);
    }
  }

  /** Every flattened row's keys are columns of the header. */
  lemma FlatKeysInHeader(data: seq<Record>, i: nat)
    requires i < |data|
    ensures KeySet(Flatten(data[i])) <= AllKeys(data)
  {
    FlattenKeys(data[i]);
    RecordKeysInAll(data, i);
  }

  /** Header names in strictly increasing code-point order (Python `sorted` of a set). */
  ghost predicate StrictlySorted(s: seq<string>)
  {
    forall i, j :: 0 <= i < j < |s| ==> TextLt(s[i], s[j])
  }

  /** `csv.DictWriter` with the default `restval`: a missing key writes the same empty cell as `None`. */
  function Cell(flat: Dict<string, Scalar>, key: string): (v: Scalar)
    ensures key !in KeySet(flat) ==> v == Null
    ensures key in KeySet(flat) ==> exists p :: 0 <= p < |flat| && flat[p] == (key, v)
  {
    GetSomeIff(flat, key);
    match Get(flat, key)
    case Some(v) => v
    case None => Null
  }

  /**
   * One cell per header column: the value the flattened row stores under that
   * column, or an empty cell when the row has no such key.
   */
  function CsvRow(header: seq<string>, flat: Dict<string, Scalar>): (cells: seq<Scalar>)
    ensures |cells| == |header| && forall j :: 0 <= j < |header| ==> cells[j] == Cell(flat, header[j])
    ensures forall j :: 0 <= j < |header| && header[j] !in KeySet(flat) ==> cells[j] == Null
    ensures forall j :: 0 <= j < |header| && header[j] in KeySet(flat) ==>
              exists p :: 0 <= p < |flat| && flat[p] == (header[j], cells[j])
  {
    seq(|header|, j requires 0 <= j < |header| => Cell(flat, header[j]))
  }

  /** The CSV file: header row, then one row of cells per record. */
  datatype Csv = Csv(header: seq<string>, rows: seq<seq<Scalar>>)

  lemma {:induction false} MinExists(s: set<string>)
    requires s != {}
    ensures exists m :: m in s && forall y :: y in s ==> TextLe(m, y)
    decreases |s|
  {
    var x :| x in s;
    var rest := s - {x};
    if rest == {} {
      TextLeReflexive(x);
      assert s == {x};
    } else {
      MinExists(rest);
      var m :| m in rest && forall y :: y in rest ==> TextLe(m, y);
      TextLeTotal(m, x);
      if TextLe(m, x) {
        forall y | y in s ensures TextLe(m, y) {
          if y != x { assert y in rest; }
        }
        assert m in s;
      } else {
        forall y | y in s ensures TextLe(x, y) {
          if y != x {
            assert y in rest;
            TextLeTransitive(x, m, y);
          } else {
            TextLeReflexive(x);
          }
        }
      }
    }
  }

  /** `all_keys` gathered by the nested loops of `_export_to_csv`. */
  method CollectKeys(data: seq<Record>) returns (keys: set<string>)
    ensures keys == AllKeys(data)
  {
    keys := {};
    var i := 0;
    while i < |data|
      invariant 0 <= i <= |data|
      invariant keys == AllKeys(data[..i])
    {
      var row := data[i];
      assert data[..i + 1][..i] == data[..i];
      var j := 0;
      while j < |row|
        invariant 0 <= j <= |row|
        invariant keys == AllKeys(data[..i]) + RecordKeys(row[..j])
      {
        assert row[..j + 1][..j] == row[..j];
        var (key, value) := row[j];
        match value {
          case Nested(sub) =>
            var m := 0;
            ghost var before := keys;
            while m < |sub|
              invariant 0 <= m <= |sub|
              invariant keys == before + set k | 0 <= k < m :: key + "_" + sub[k].0
            {
              keys := keys + {key + "_" + sub[m].0};
              m := m + 1;
            }
          case Plain(_) =>
            keys := keys + {key};
        }
        j := j + 1;
      }
      assert row[..j] == row;
      i := i + 1;
    }
    assert data[..i] == data;
  }

  /** `sorted(all_keys)`, by repeatedly taking the least remaining name. */
  method SortKeys(keys: set<string>) returns (header: seq<string>)
    ensures StrictlySorted(header)
    ensures forall k :: k in header <==> k in keys
  {
    var rest := keys;
    header := [];
    while rest != {}
      invariant StrictlySorted(header)
      invariant forall k :: k in header <==> k in keys && k !in rest
      invariant rest <= keys
      invariant forall a, b :: a in header && b in rest ==> TextLt(a, b)
      decreases rest
    {
      MinExists(rest);
      var m :| m in rest && forall y :: y in rest ==> TextLe(m, y);
      header := header + [m];
      rest := rest - {m};
    }
  }

  /** `flat_row` built by the inner loops of `_export_to_csv`. */
  method FlattenRecord(r: Record) returns (flat: Dict<string, Scalar>)
    ensures flat == Flatten(r)
  {
    flat := [];
    var j := 0;
    while j < |r|
      invariant 0 <= j <= |r|
      invariant flat == Flatten(r[..j])
    {
      assert r[..j + 1][..j] == r[..j];
      var (key, value) := r[j];
      match value {
        case Nested(sub) =>
          ghost var before := flat;
          var m := 0;
          while m < |sub|
            invariant 0 <= m <= |sub|
            invariant flat == SetPrefixed(before, key, sub[..m])
          {
            assert sub[..m + 1][..m] == sub[..m];
            flat := Set(flat, key + "_" + sub[m].0, sub[m].1);
            m := m + 1;
          }
          assert sub[..m] == sub;
        case Plain(v) =>
          flat := Set(flat, key, v);
      }
      j := j + 1;
    }
    assert r[..j] == r;
  }

  /**
   * `_export_to_csv`: nothing for no records; otherwise the sorted union of all
   * flattened keys as the header and one row of cells per record, in order.
   */
  method ExportToCsv(data: seq<Record>) returns (r: Option<Csv>)
    ensures r.None? <==> |data| == 0
    ensures r.Some? ==> StrictlySorted(r.value.header)
                        && (forall k :: k in r.value.header <==> k in AllKeys(data))
                        && |r.value.rows| == |data|
                        && (forall i :: 0 <= i < |data| ==> r.value.rows[i] == CsvRow(r.value.header, Flatten(data[i])))
  {
    if |data| == 0 {
      return None;
    }
    var keys := CollectKeys(data);
    var header := SortKeys(keys);
    var rows := CsvRows(header, data);
    r := Some(Csv(header, rows));
  }

  /** The `writer.writerow` loop: one row of cells per record, in order. */
  method CsvRows(header: seq<string>, data: seq<Record>) returns (rows: seq<seq<Scalar>>)
    ensures |rows| == |data|
    ensures forall i :: 0 <= i < |data| ==> rows[i] == CsvRow(header, Flatten(data[i]))
  {
    rows := [];
    var i := 0;
    while i < |data|
      invariant 0 <= i <= |data|
      invariant |rows| == i
      invariant forall k :: 0 <= k < i ==> rows[k] == CsvRow(header, Flatten(data[k]))
    {
      var flat := FlattenRecord(data[i]);
      rows := rows + [CsvRow(header, flat)];
      i := i + 1;
    }
  }
}
