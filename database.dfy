/** src/database.py: the SQLite file with its `passwords` and `app_settings`
    tables, the additive column migration `ensure_columns`, and the key file
    behind `get_encryption_key`.  Tables are maps; SQL text is not modelled,
    only the effect of each statement the program issues. */
module Database {
  import opened Wrappers
  import opened Crypto

  // ---------------------------------------------------------------------
  // Values and rows

  /** A cell of the `passwords` table: NULL, TEXT or INTEGER. */
  datatype Value = Null | Text(s: string) | Int(n: int)

  /** Python truthiness of a value read from SQLite. */
  predicate Truthy(v: Value) {
    match v
    case Null => false
    case Text(s) => s != []
    case Int(n) => n != 0
  }

  /** A row: column name to cell. */
  type Record = map<string, Value>

  /** `row.get(col)`: a column the row does not have reads as NULL. */
  function Get(r: Record, col: string): Value {
    if col in r then r[col] else Null
  }

  /** The columns of `CREATE TABLE IF NOT EXISTS passwords (...)`. */
  const BaseColumns: seq<string> :=
    ["id", "created_at", "updated_at", "last_used_at", "name", "type", "password", "username"]

  /** The keys of `required_columns`, in the order the loop visits them. */
  const RequiredColumns: seq<string> :=
    ["email", "url", "phone", "category", "tags", "notes", "is_favorite", "last_used_at",
     "security_question", "security_answer", "recovery_email", "recovery_phone", "full_name",
     "date_of_birth", "address", "passport_number", "identification_number", "account_number",
     "bank_name", "card_number", "card_cvv", "card_expire", "card_holder", "card_pin", "card_type",
     "bank_bik", "account_type", "currency", "limit_amount", "cardholder_phone",
     "cardholder_full_name",
     "custom_field_1", "custom_field_2", "custom_field_3", "custom_field_4", "custom_field_5",
     "custom_field_6", "custom_field_7", "custom_field_8", "custom_field_9", "custom_field_10"]

  /** The value an added column takes in rows that already exist: only
      `is_favorite` is declared `BOOLEAN DEFAULT 0`. */
  function AddedColumnDefault(col: string): Value {
    if col == "is_favorite" then Int(0) else Null
  }

  // ---------------------------------------------------------------------
  // The migration, as a function of the column list

  /** The columns of `req` for which `ensure_columns` issues an ALTER: those
      missing from the set read by PRAGMA, in loop order. */
  function Missing(req: seq<string>, existing: set<string>): (r: seq<string>)
    ensures |r| <= |req|
  {
    if req == [] then []
    else
      var c := req[|req| - 1];
      Missing(req[..|req| - 1], existing) + (if c !in existing then [c] else [])
  }

  /** The columns whose ALTER succeeds: missing and not among the failing ones. */
  function Added(req: seq<string>, existing: set<string>, failing: set<string>): (r: seq<string>)
    ensures |r| <= |Missing(req, existing)|
  {
    if req == [] then []
    else
      var c := req[|req| - 1];
      Added(req[..|req| - 1], existing, failing) + (if c !in existing && c !in failing then [c] else [])
  }

  /** An ALTER is issued exactly for the required columns not present. */
  lemma {:induction false} MissingMembers(req: seq<string>, existing: set<string>)
    ensures forall c :: c in Missing(req, existing) <==> c in req && c !in existing
  {
    if req != [] {
      var init := req[..|req| - 1];
      MissingMembers(init, existing);
      assert req == init + [req[|req| - 1]];
    }
  }

  /** A column is added exactly when it is required, absent and its ALTER
      does not fail. */
  lemma {:induction false} AddedMembers(req: seq<string>, existing: set<string>, failing: set<string>)
    ensures forall c :: c in Added(req, existing, failing) <==> c in req && c !in existing && c !in failing
  {
    if req != [] {
      var init := req[..|req| - 1];
      AddedMembers(init, existing, failing);
      assert req == init + [req[|req| - 1]];
    }
  }

  /** The column list after `ensure_columns`. */
  function Migrated(cols: seq<string>, failing: set<string>): seq<string> {
    cols + Added(RequiredColumns, SetOf(cols), failing)
  }

  /** Existing columns keep their place; nothing present is re-added. */
  lemma MigrationKeepsExisting(cols: seq<string>, failing: set<string>)
    ensures Migrated(cols, failing)[..|cols|] == cols
    ensures forall c :: c in Missing(RequiredColumns, SetOf(cols)) ==> c !in cols
  {
    MissingMembers(RequiredColumns, SetOf(cols));
  }

  /** After the migration the column set is the old set together with every
      required column whose ALTER did not fail; with no failures it is
      existing ∪ required. */
  lemma MigrationColumns(cols: seq<string>, failing: set<string>)
    ensures SetOf(Migrated(cols, failing))
         == SetOf(cols) + (SetOf(RequiredColumns) - failing)
    ensures SetOf(Migrated(cols, {})) == SetOf(cols) + SetOf(RequiredColumns)
  {
    AddedMembers(RequiredColumns, SetOf(cols), failing);
    AddedMembers(RequiredColumns, SetOf(cols), {});
  }

  /** A second run adds nothing: the migration is idempotent. */
  lemma {:induction false} MigrationIdempotent(cols: seq<string>, failing: set<string>)
    ensures Added(RequiredColumns, SetOf(Migrated(cols, failing)), failing) == []
    ensures Migrated(Migrated(cols, failing), failing) == Migrated(cols, failing)
  {
    var m := Migrated(cols, failing);
    var added := Added(RequiredColumns, SetOf(cols), failing);
    AddedMembers(RequiredColumns, SetOf(cols), failing);
    forall c | c in RequiredColumns
      ensures c in SetOf(m) || c in failing
    {
      if c !in cols && c !in failing {
        assert c in added;
      }
    }
    AddedNone(RequiredColumns, SetOf(m), failing);
    assert Migrated(m, failing) == m + [];
  }

  lemma {:induction false} AddedNone(req: seq<string>, existing: set<string>, failing: set<string>)
    requires forall c :: c in req ==> c in existing || c in failing
    ensures Added(req, existing, failing) == []
  {
    if req != [] {
      AddedNone(req[..|req| - 1], existing, failing);
    }
  }

  /** One failing ALTER does not stop the others: every other missing column
      is still added. */
  lemma FailureIsolated(cols: seq<string>, failing: set<string>, c: string)
    requires c in Missing(RequiredColumns, SetOf(cols)) && c !in failing
    ensures c in Migrated(cols, failing)
  {
    MissingMembers(RequiredColumns, SetOf(cols));
    AddedMembers(RequiredColumns, SetOf(cols), failing);
  }

  /** `after` has the rows of `before`, each with at least its cells. */
  ghost predicate Extends(before: map<nat, Record>, after: map<nat, Record>) {
    && after.Keys == before.Keys
    && forall id, c :: id in before && c in before[id] ==> c in after[id] && after[id][c] == before[id][c]
  }

  /** Adding a column no row of `base` has keeps `Extends`. */
  lemma AddColumnExtends(base: map<nat, Record>, mid: map<nat, Record>, col: string)
    requires Extends(base, mid)
    requires forall id :: id in base ==> col !in base[id]
    ensures Extends(base, AddColumn(mid, col))
  {
  }

  /** Each row gains the new column with its default. */
  function AddColumn(records: map<nat, Record>, col: string): (r: map<nat, Record>)
    ensures r.Keys == records.Keys
    ensures forall id :: id in r ==> r[id].Keys == records[id].Keys + {col}
    ensures forall id :: id in r ==> r[id][col] == AddedColumnDefault(col)
    ensures forall id, c :: id in r && c in records[id] && c != col ==> r[id][c] == records[id][c]
  {
    map id | id in records :: records[id][col := AddedColumnDefault(col)]
  }

  // ---------------------------------------------------------------------
  // INSERT row construction

  /** The value for `col` among the listed columns, when it is listed. */
  function Lookup(cols: seq<string>, vals: seq<Value>, col: string): (r: Option<Value>)
    requires |cols| == |vals|
    ensures r.Some? <==> col in cols
    ensures r.Some? ==> exists i | 0 <= i < |cols| :: cols[i] == col && vals[i] == r.value
  {
    if cols == [] then None
    else if cols[|cols| - 1] == col then Some(vals[|vals| - 1])
    else Lookup(cols[..|cols| - 1], vals[..|vals| - 1], col)
  }

  /** The cell a column gets on INSERT when it is not listed. */
  function InsertDefault(col: string, id: nat, now: string): Value {
    if col == "id" then Int(id)
    else if col == "created_at" || col == "updated_at" then Text(now)
    else if col == "is_favorite" then Int(0)
    else Null
  }

  /** The row `INSERT INTO passwords (cols) VALUES (vals)` creates. */
  function NewRow(table: seq<string>, cols: seq<string>, vals: seq<Value>, id: nat, now: string): (r: Record)
    requires |cols| == |vals|
    ensures r.Keys == SetOf(table)
    ensures forall c :: c in table && c in cols ==> r[c] == Lookup(cols, vals, c).value
    ensures forall c :: c in table && c !in cols ==> r[c] == InsertDefault(c, id, now)
  {
    map c | c in table :: if c in cols then Lookup(cols, vals, c).value else InsertDefault(c, id, now)
  }

  /** The row after `UPDATE passwords SET cols=vals`. */
  function UpdatedRow(row: Record, cols: seq<string>, vals: seq<Value>): (r: Record)
    requires |cols| == |vals|
    ensures r.Keys == row.Keys
    ensures forall c :: c in row && c in cols ==> r[c] == Lookup(cols, vals, c).value
    ensures forall c :: c in row && c !in cols ==> r[c] == row[c]
  {
    map c | c in row :: if c in cols then Lookup(cols, vals, c).value else row[c]
  }

  // ---------------------------------------------------------------------
  // The database file

  class Db {
    /** Columns of the `passwords` table; None while the table is absent. */
    var passwords: Option<seq<string>>
    var records: map<nat, Record>
    /** The next AUTOINCREMENT id. */
    var nextId: nat
    /** The `app_settings` key/value table; None while it is absent. */
    var settings: Option<map<string, string>>

    ghost predicate Valid()
      reads this
    {
      && 0 < nextId
      && (passwords.None? ==> records == map[])
      && (forall id :: id in records ==> 0 < id < nextId)
      && (forall id :: id in records ==> passwords.Some? && records[id].Keys == SetOf(passwords.value))
    }

    function Columns(): set<string>
      reads this
    {
      if passwords.Some? then SetOf(passwords.value) else {}
    }

    /** A database file that does not exist yet. */
    constructor Empty()
      ensures Valid()
      ensures passwords == None && records == map[] && settings == None && nextId == 1
    {
      passwords := None;
      records := map[];
      nextId := 1;
      settings := None;
    }

    /** `init_database`: create the two tables when absent, then migrate.
        `failing` holds the columns whose ALTER raises. */
    method InitDatabase(failing: set<string>)
      requires Valid()
      modifies this
      ensures Valid()
      ensures old(passwords).Some? ==> passwords == Some(Migrated(old(passwords).value, failing))
      ensures old(passwords).None? ==> passwords == Some(Migrated(BaseColumns, failing))
      ensures old(settings).Some? ==> settings == old(settings)
      ensures old(settings).None? ==> settings == Some(map[])
      ensures Extends(old(records), records) && nextId == old(nextId)
    {
      if passwords.None? {
        passwords := Some(BaseColumns);
      }
      if settings.None? {
        settings := Some(map[]);
      }
      var _ := EnsureColumns(failing);
    }

    /** `ensure_columns`: read the column set once, then try one ALTER per
        required column missing from it.  A raising ALTER is swallowed and
        the loop goes on.  Returns the columns an ALTER was issued for. */
    method EnsureColumns(failing: set<string>) returns (attempted: seq<string>)
      requires Valid()
      modifies this
      ensures Valid()
      ensures attempted == Missing(RequiredColumns, old(Columns()))
      ensures old(passwords).Some? ==> passwords == Some(Migrated(old(passwords).value, failing))
      ensures old(passwords).None? ==> passwords == None
      ensures Extends(old(records), records)
      ensures settings == old(settings) && nextId == old(nextId)
    {
      attempted := AddMissing(RequiredColumns, failing);
    }

    /** `ensure_columns` over a list of column names: the statements run
        one after another on the open connection, with nothing in between. */
    method AddMissing(req: seq<string>, failing: set<string>) returns (attempted: seq<string>)
      requires Valid()
      modifies this
      ensures Valid()
      ensures attempted == Missing(req, old(Columns()))
      ensures old(passwords).Some? ==>
        passwords == Some(old(passwords).value + Added(req, old(Columns()), failing))
      ensures old(passwords).None? ==> passwords == None
      ensures Extends(old(records), records)
      ensures settings == old(settings) && nextId == old(nextId)
    {
      var table, rows;
      attempted, table, rows := AlterLoop(req, Columns(), failing, passwords, records);
      passwords := table;
      records := rows;
    }

    /** One successful `ALTER TABLE passwords ADD COLUMN`. */
    method AlterAdd(col: string)
      requires Valid() && passwords.Some?
      modifies this`passwords, this`records
      ensures Valid()
      ensures passwords == Some(old(passwords).value + [col])
      ensures records == AddColumn(old(records), col)
    {
      passwords := Some(passwords.value + [col]);
      records := AddColumn(records, col);
    }

    /** `CREATE TABLE IF NOT EXISTS app_settings`. */
    method CreateSettingsTable()
      modifies this`settings
      ensures old(settings).None? ==> settings == Some(map[])
      ensures old(settings).Some? ==> settings == old(settings)
    {
      if settings.None? {
        settings := Some(map[]);
      }
    }

    /** `SELECT value FROM app_settings WHERE key=?`. */
    function GetSetting(key: string): (r: Option<string>)
      reads this
      ensures r.Some? <==> settings.Some? && key in settings.value
    {
      if settings.Some? && key in settings.value then Some(settings.value[key]) else None
    }

    /** `INSERT INTO app_settings (key, value)`; the primary key makes an
        existing key raise, which leaves the table as it was. */
    method InsertSetting(key: string, value: string) returns (ok: bool)
      requires settings.Some?
      modifies this`settings
      ensures ok <==> key !in old(settings).value
      ensures ok ==> settings == Some(old(settings).value[key := value])
      ensures !ok ==> settings == old(settings)
    {
      ok := key !in settings.value;
      if ok {
        settings := Some(settings.value[key := value]);
      }
    }

    /** `UPDATE app_settings SET value=? WHERE key=?`: no row, no change. */
    method UpdateSetting(key: string, value: string)
      modifies this`settings
      ensures old(settings).Some? && key in old(settings).value ==> settings == Some(old(settings).value[key := value])
      ensures !(old(settings).Some? && key in old(settings).value) ==> settings == old(settings)
    {
      if settings.Some? && key in settings.value {
        settings := Some(settings.value[key := value]);
      }
    }

    /** `DELETE FROM app_settings WHERE key=?`. */
    method DeleteSetting(key: string)
      modifies this`settings
      ensures old(settings).Some? ==> settings == Some(old(settings).value - {key})
      ensures old(settings).None? ==> settings == None
    {
      if settings.Some? {
        settings := Some(settings.value - {key});
      }
    }

    /** `INSERT INTO passwords (cols) VALUES (vals)`.  A column the table
        lacks raises; nothing is written then.  `now` is SQLite's
        CURRENT_TIMESTAMP. */
    method Insert(cols: seq<string>, vals: seq<Value>, now: string) returns (id: Option<nat>)
      requires Valid() && |cols| == |vals|
      modifies this`records, this`nextId
      ensures Valid()
      ensures id.Some? <==> old(passwords).Some? && forall c :: c in cols ==> c in old(Columns())
      ensures id.Some? ==> (id.value == old(nextId) && nextId == old(nextId) + 1
               && records == old(records)[id.value := NewRow(passwords.value, cols, vals, id.value, now)])
      ensures id.None? ==> records == old(records) && nextId == old(nextId)
    {
      if passwords.Some? && forall c :: c in cols ==> c in SetOf(passwords.value) {
        var row := NewRow(passwords.value, cols, vals, nextId, now);
        records := records[nextId := row];
        id := Some(nextId);
        nextId := nextId + 1;
      } else {
        id := None;
      }
    }

    /** `UPDATE passwords SET cols=vals WHERE id=?`; an unknown id matches no
        row, an unknown column raises. */
    method Update(id: nat, cols: seq<string>, vals: seq<Value>) returns (ok: bool)
      requires Valid() && |cols| == |vals|
      modifies this`records
      ensures Valid()
      ensures ok <==> old(passwords).Some? && forall c :: c in cols ==> c in old(Columns())
      ensures ok && id in old(records) ==> records == old(records)[id := UpdatedRow(old(records)[id], cols, vals)]
      ensures !(ok && id in old(records)) ==> records == old(records)
    {
      ok := passwords.Some? && forall c :: c in cols ==> c in SetOf(passwords.value);
      if ok && id in records {
        records := records[id := UpdatedRow(records[id], cols, vals)];
      }
    }

    /** `DELETE FROM passwords WHERE id IN (...)`: one statement, so the ids
        go together. */
    method Delete(ids: set<nat>)
      requires Valid()
      modifies this`records
      ensures Valid()
      ensures records == old(records) - ids
      ensures forall id :: id in ids ==> id !in records
    {
      records := records - ids;
    }

    /** `UPDATE passwords SET last_used_at = CURRENT_TIMESTAMP WHERE id=?`. */
    method SetLastUsed(id: nat, now: string)
      requires Valid()
      modifies this`records
      ensures Valid()
      ensures id in old(records) && "last_used_at" in old(records)[id] ==>
        records == old(records)[id := old(records)[id]["last_used_at" := Text(now)]]
      ensures !(id in old(records) && "last_used_at" in old(records)[id]) ==> records == old(records)
    {
      if id in records && "last_used_at" in records[id] {
        records := records[id := records[id]["last_used_at" := Text(now)]];
      }
    }
  }

  /** The loop of `ensure_columns`: `existing` is the column set read once
      before it; each missing column gets an ALTER, which adds it to the
      table and to every row unless it raises (the column is in `failing`,
      or there is no table).  A raising ALTER is swallowed and the loop goes
      on.  Returns the columns an ALTER was issued for. */
  method AlterLoop(req: seq<string>, existing: set<string>, failing: set<string>,
                   table0: Option<seq<string>>, rows0: map<nat, Record>)
    returns (attempted: seq<string>, table: Option<seq<string>>, rows: map<nat, Record>)
    requires table0.None? ==> rows0 == map[]
    requires table0.Some? ==> existing == SetOf(table0.value)
    requires table0.Some? ==> forall id :: id in rows0 ==> rows0[id].Keys == existing
    ensures attempted == Missing(req, existing)
    ensures table0.None? ==> table == None && rows == map[]
    ensures table0.Some? ==> table == Some(table0.value + Added(req, existing, failing))
    ensures table.Some? ==> forall id :: id in rows ==> rows[id].Keys == SetOf(table.value)
    ensures Extends(rows0, rows)
  {
    table := table0;
    rows := rows0;
    attempted := [];
    var i := 0;
    assert req[..0] == [];
    if table.Some? {
      assert table.value + [] == table.value;
    }
    while i < |req|
      invariant 0 <= i <= |req|
      invariant attempted == Missing(req[..i], existing)
      invariant table.Some? <==> table0.Some?
      invariant table.Some? ==> table.value == table0.value + Added(req[..i], existing, failing)
      invariant table.None? ==> rows == map[]
      invariant table.Some? ==> forall id :: id in rows ==> rows[id].Keys == SetOf(table.value)
      invariant Extends(rows0, rows)
    {
      var col := req[i];
      PrefixStep(req, i, existing, failing);
      ghost var next := req[..i + 1];
      if col !in existing {
        attempted := attempted + [col];
        if table.Some? && col !in failing {
          AlterStep(req, i, existing, failing, table0.value, table.value, rows0, rows);
          table := Some(table.value + [col]);
          rows := AddColumn(rows, col);
        } else if table.Some? {
          assert Added(next, existing, failing) == Added(req[..i], existing, failing);
        }
      } else {
        assert Missing(next, existing) == Missing(req[..i], existing);
        assert Added(next, existing, failing) == Added(req[..i], existing, failing);
      }
      assert attempted == Missing(next, existing);
      i := i + 1;
    }
    assert req[..i] == req;
  }

  /** Both migration lists grow by at most the next column. */
  lemma PrefixStep(req: seq<string>, i: nat, existing: set<string>, failing: set<string>)
    requires i < |req|
    ensures Missing(req[..i + 1], existing)
         == Missing(req[..i], existing) + (if req[i] !in existing then [req[i]] else [])
    ensures Added(req[..i + 1], existing, failing)
         == Added(req[..i], existing, failing) + (if req[i] !in existing && req[i] !in failing then [req[i]] else [])
  {
    assert req[..i + 1][..i] == req[..i];
  }

  /** One successful ALTER keeps the loop's invariants. */
  lemma AlterStep(req: seq<string>, i: nat, existing: set<string>, failing: set<string>,
                  t0: seq<string>, t: seq<string>, rows0: map<nat, Record>, rows: map<nat, Record>)
    requires i < |req| && req[i] !in existing && req[i] !in failing
    requires t == t0 + Added(req[..i], existing, failing)
    requires forall id :: id in rows ==> rows[id].Keys == SetOf(t)
    requires forall id :: id in rows0 ==> rows0[id].Keys == existing
    requires Extends(rows0, rows)
    ensures t + [req[i]] == t0 + Added(req[..i + 1], existing, failing)
    ensures forall id :: id in AddColumn(rows, req[i]) ==> AddColumn(rows, req[i])[id].Keys == SetOf(t + [req[i]])
    ensures Extends(rows0, AddColumn(rows, req[i]))
  {
    PrefixStep(req, i, existing, failing);
    AddColumnExtends(rows0, rows, req[i]);
    assert SetOf(t + [req[i]]) == SetOf(t) + {req[i]};
  }

  // ---------------------------------------------------------------------
  // The key file

  /** `get_encryption_key` as a function of the file's contents: the key to
      use and the file afterwards. */
  function LoadOrCreateKey(file: Option<Key>, generated: Key): (r: (Key, Option<Key>))
    ensures file.Some? ==> r.0 == file.value && r.1 == file
    ensures file.None? ==> r.0 == generated && r.1 == Some(generated)
    ensures r.1 == Some(r.0)
  {
    match file
    case Some(k) => (k, file)
    case None => (generated, Some(generated))
  }

  /** Once a key exists, loading never replaces it, whatever key would have
      been generated. */
  lemma KeyStable(file: Option<Key>, gen1: Key, gen2: Key)
    ensures LoadOrCreateKey(LoadOrCreateKey(file, gen1).1, gen2) == LoadOrCreateKey(file, gen1)
  {
  }

  /** `encryption.key` on disk. */
  class KeyFile {
    var contents: Option<Key>

    constructor (contents0: Option<Key>)
      ensures contents == contents0
    {
      contents := contents0;
    }

    /** Read the key if the file exists; otherwise write `generated` (the key
        Fernet would generate) and return it. */
    method GetEncryptionKey(generated: Key) returns (key: Key)
      modifies this
      ensures old(contents).Some? ==> key == old(contents).value && contents == old(contents)
      ensures old(contents).None? ==> key == generated && contents == Some(generated)
    {
      if contents.Some? {
        key := contents.value;
      } else {
        contents := Some(generated);
        key := generated;
      }
    }
  }

  /** Two loads in a row agree: the second reads what the first wrote. */
  method LoadTwice(f: KeyFile, gen1: Key, gen2: Key) returns (k1: Key, k2: Key)
    modifies f
    ensures k1 == k2 && f.contents == Some(k1)
    ensures old(f.contents).Some? ==> k1 == old(f.contents).value
  {
    k1 := f.GetEncryptionKey(gen1);
    k2 := f.GetEncryptionKey(gen2);
  }
}
