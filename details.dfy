/** The detail view of src/windows/details.py: which columns of a record
    become rows, in what order, which of them are masked, how their labels
    are derived, and the eye button that reveals or hides a secure value.
    Widgets are reduced to the text and colour of each value entry. */
module Details {
  import opened Wrappers
  import opened Text
  import opened Crypto
  import opened Database

  /** What a secure entry shows instead of its value. */
  const Masked: string := "••••••••"
  /** The prefix `toggle_view` takes as "currently hidden". */
  const MaskPrefix: string := "•••"

  const Black: string := "black"
  const Grey: string := "#95a5a6"
  const Red: string := "#e74c3c"

  /** Columns never listed among the "other" rows. */
  const Exclude: seq<string> :=
    ["id", "user_id", "type", "name", "password", "is_favorite", "created_at", "updated_at", "last_used_at"]
  /** Columns whose rows are masked. */
  const Encrypted: seq<string> :=
    ["card_number", "card_cvv", "card_pin", "security_answer", "account_number", "passport_number"]

  /** One `add_grid_row` call: its label, the value it was given, and its
      flags (`is_secure`, `is_big`, and the grey colour of the dates). */
  datatype DetailRow = DetailRow(caption: string, value: Value, secure: bool, big: bool, grey: bool)

  /** Python `str()` of a value read from SQLite. */
  function Str(v: Value): string {
    match v
    case Null => "None"
    case Text(s) => s
    case Int(n) => IntToString(n)
  }

  // ---------------------------------------------------------------------
  // Which rows, in which order

  /** `key.replace("_", " ").title()`. */
  function Label(key: string): string {
    Title(ReplaceChar(key, '_', ' '))
  }

  /** The test of the loop over the record's columns. */
  predicate Listed(key: string, v: Value) {
    key !in Exclude && v != Null && v != Text("")
  }

  function OtherRow(key: string, v: Value): DetailRow {
    DetailRow(Label(key), Text(Str(v)), key in Encrypted, false, false)
  }

  function RowFor(key: string, data: Record): seq<DetailRow> {
    if Listed(key, Get(data, key)) then [OtherRow(key, Get(data, key))] else []
  }

  /** The rows of the loop over `self.data.items()`, in column order. */
  function OtherRows(cols: seq<string>, data: Record): (r: seq<DetailRow>)
    ensures |r| <= |cols|
  {
    if cols == [] then [] else OtherRows(cols[..|cols| - 1], data) + RowFor(cols[|cols| - 1], data)
  }

  /** One more column of the loop adds its row, if any, at the end. */
  lemma OtherRowsStep(cols: seq<string>, i: nat, data: Record)
    requires i < |cols|
    ensures OtherRows(cols[..i + 1], data) == OtherRows(cols[..i], data) + RowFor(cols[i], data)
  {
    assert cols[..i + 1][..i] == cols[..i];
  }

  /** Login and email when truthy, then the password, always. */
  function TopRows(data: Record): seq<DetailRow> {
    (if Truthy(Get(data, "username")) then [DetailRow("Логин/User", Get(data, "username"), false, false, false)] else [])
    + (if Truthy(Get(data, "email")) then [DetailRow("Email", Get(data, "email"), false, false, false)] else [])
    + [PasswordRow(data)]
  }

  /** `str(v).split('.')[0]`: the timestamp without its fraction. */
  function DateRow(caption: string, v: Value): DetailRow {
    DetailRow(caption, Text(BeforeFirst(Str(v), '.')), false, false, true)
  }

  /** Creation and change dates, when truthy, in grey. */
  function DateRows(data: Record): seq<DetailRow> {
    (if Truthy(Get(data, "created_at")) then [DateRow("Создано", Get(data, "created_at"))] else [])
    + (if Truthy(Get(data, "updated_at")) then [DateRow("Изменено", Get(data, "updated_at"))] else [])
  }

  /** Every row `create_ui` adds, in order. */
  function DetailRows(cols: seq<string>, data: Record): seq<DetailRow> {
    TopRows(data) + OtherRows(cols, data) + DateRows(data)
  }

  /** The rows of two runs of columns are the rows of each, one after the
      other: the loop keeps the table's column order. */
  lemma {:induction false} OtherRowsAppend(a: seq<string>, b: seq<string>, data: Record)
    ensures OtherRows(a + b, data) == OtherRows(a, data) + OtherRows(b, data)
    decreases |b|
  {
    if b == [] {
      assert a + b == a;
    } else {
      var b' := b[..|b| - 1];
      assert (a + b)[..|a + b| - 1] == a + b';
      assert (a + b)[|a + b| - 1] == b[|b| - 1];
      OtherRowsAppend(a, b', data);
    }
  }

  /** A column gets a row iff it passes the test: every listed column's row
      is present ... */
  lemma {:induction false} OtherRowsComplete(cols: seq<string>, data: Record, i: nat)
    requires i < |cols| && Listed(cols[i], Get(data, cols[i]))
    ensures OtherRow(cols[i], Get(data, cols[i])) in OtherRows(cols, data)
  {
    var init := cols[..|cols| - 1];
    if i < |cols| - 1 {
      assert init[i] == cols[i];
      OtherRowsComplete(init, data, i);
    }
  }

  /** ... and every row present comes from a listed column. */
  lemma {:induction false} OtherRowsSound(cols: seq<string>, data: Record, row: DetailRow)
    requires row in OtherRows(cols, data)
    ensures exists k :: k in cols && Listed(k, Get(data, k)) && row == OtherRow(k, Get(data, k))
  {
    var last := cols[|cols| - 1];
    if row in OtherRows(cols[..|cols| - 1], data) {
      OtherRowsSound(cols[..|cols| - 1], data, row);
      var k :| k in cols[..|cols| - 1] && Listed(k, Get(data, k)) && row == OtherRow(k, Get(data, k));
      assert k in cols;
    } else {
      assert row in RowFor(last, data);
      assert last in cols;
    }
  }

  /** The password row always follows the (at most two) login and email
      rows, masked and large. */
  lemma PasswordRowAlways(cols: seq<string>, data: Record)
    ensures var k := (if Truthy(Get(data, "username")) then 1 else 0) + (if Truthy(Get(data, "email")) then 1 else 0);
      k < |DetailRows(cols, data)|
      && DetailRows(cols, data)[k] == PasswordRow(data)
  {
  }

  /** `email` is not excluded, so a record with an email shows it twice:
      once at the top and once among the other columns. */
  lemma EmailShownTwice(cols: seq<string>, data: Record, i: nat)
    requires i < |cols| && cols[i] == "email" && Get(data, "email").Text? && Get(data, "email").s != ""
    ensures exists a, b :: (0 <= a < b < |DetailRows(cols, data)|
      && DetailRows(cols, data)[a].caption == "Email" && DetailRows(cols, data)[b].caption == "Email")
  {
    var a := EmailAtTop(data);
    var j := EmailAmongOthers(cols, data, i);
    var top := TopRows(data);
    var rows := DetailRows(cols, data);
    assert rows[a] == top[a] && rows[|top| + j] == OtherRows(cols, data)[j];
  }

  /** Where the top rows show the email. */
  lemma EmailAtTop(data: Record) returns (a: nat)
    requires Get(data, "email").Text? && Get(data, "email").s != ""
    ensures a < |TopRows(data)| && TopRows(data)[a].caption == "Email"
  {
    a := if Truthy(Get(data, "username")) then 1 else 0;
  }

  /** Where the other columns show the email again. */
  lemma EmailAmongOthers(cols: seq<string>, data: Record, i: nat) returns (j: nat)
    requires i < |cols| && cols[i] == "email" && Get(data, "email").Text? && Get(data, "email").s != ""
    ensures j < |OtherRows(cols, data)| && OtherRows(cols, data)[j].caption == "Email"
  {
    assert Listed("email", Get(data, "email"));
    OtherRowsComplete(cols, data, i);
    var others := OtherRows(cols, data);
    j :| 0 <= j < |others| && others[j] == OtherRow("email", Get(data, "email"));
    LabelOfEmail();
  }

  lemma LabelOfEmail()
    ensures Label("email") == "Email"
  {
    assert ReplaceChar("email", '_', ' ') == "email";
  }

  /** A snake_case column name becomes words: an underscore turns into a
      space, and a letter is upper case exactly when it starts a word. */
  lemma LabelOfSnakeCase(key: string, i: nat)
    requires i < |key| && forall j :: 0 <= j < |key| ==> IsAsciiLower(key[j]) || key[j] == '_'
    ensures key[i] == '_' ==> Label(key)[i] == ' '
    ensures key[i] != '_' ==> IsAsciiLetter(Label(key)[i])
    ensures key[i] != '_' ==> (IsAsciiUpper(Label(key)[i]) <==> i == 0 || key[i - 1] == '_')
  {
    var spaced := ReplaceChar(key, '_', ' ');
    assert spaced[i] == if key[i] == '_' then ' ' else key[i];
    if i > 0 {
      assert spaced[i - 1] == if key[i - 1] == '_' then ' ' else key[i - 1];
    }
  }

  // ---------------------------------------------------------------------
  // Masking and the eye button

  /** The text an entry is created with. */
  function Shown(row: DetailRow): string {
    if row.secure then Masked else Str(row.value)
  }

  function InitialColor(row: DetailRow): string {
    if row.grey then Grey else Black
  }

  function PasswordRow(data: Record): DetailRow {
    DetailRow("Пароль", Get(data, "password"), true, true, false)
  }

  /** The masked rows are exactly the password row and the row of each
      listed encrypted column; every other row shows its value. */
  lemma MaskedRows(cols: seq<string>, data: Record, row: DetailRow)
    requires row in DetailRows(cols, data)
    ensures row.secure ==> Shown(row) == Masked
    ensures !row.secure ==> Shown(row) == Str(row.value)
    ensures row.secure <==> (row == PasswordRow(data)
      || (exists k :: k in cols && k in Encrypted && Listed(k, Get(data, k)) && row == OtherRow(k, Get(data, k))))
  {
    if row in OtherRows(cols, data) {
      OtherRowsSound(cols, data, row);
    } else {
      assert row in TopRows(data) || row in DateRows(data);
    }
  }

  /** `decrypt_password(v)`: a text token is decrypted (or yields the
      sentinel); a NULL or integer value makes `.encode()` raise inside the
      same `try`, which also yields the sentinel. */
  function Revealed(c: Scheme, key: Key, v: Value): (r: string)
    ensures v.Text? && c.open(key, v.s).Some? ==> r == c.open(key, v.s).value
    ensures !(v.Text? && c.open(key, v.s).Some?) ==> r == DecryptFailure
  {
    match v
    case Text(s) => DecryptPassword(c, key, s)
    case _ => DecryptFailure
  }

  /** A value this program encrypted is revealed as its plaintext. */
  lemma RevealShowsPlaintext(c: Scheme, key: Key, nonce: nat, plain: string)
    requires Sound(c)
    ensures Revealed(c, key, Text(EncryptPassword(c, key, nonce, plain))) == plain
  {
    DecryptEncrypt(c, key, nonce, plain);
  }

  /** `toggle_view` as written: the entry's own text decides; one starting
      with "•••" is taken as hidden. */
  function ToggleText(current: string, plain: string): (r: string)
    ensures StartsWith(current, MaskPrefix) ==> r == plain
    ensures !StartsWith(current, MaskPrefix) ==> r == Masked
  {
    if StartsWith(current, MaskPrefix) then plain else Masked
  }

  /** Two presses re-mask the entry only when the plaintext does not itself
      start with "•••" (or is the mask). */
  lemma ToggleTextTwice(plain: string)
    ensures ToggleText(ToggleText(Masked, plain), plain) == Masked
        <==> !StartsWith(plain, MaskPrefix) || plain == Masked
  {
    assert StartsWith(Masked, MaskPrefix);
  }

  /** A password "•••abc" stays visible however often the button is pressed. */
  lemma ToggleTextStuck()
    ensures ToggleText(ToggleText(Masked, "•••abc"), "•••abc") != Masked
  {
    ToggleTextTwice("•••abc");
  }

  /** The toggle on an explicit "revealed" flag: the new text and flag. */
  function Toggle(revealed: bool, plain: string): (string, bool) {
    if revealed then (Masked, false) else (plain, true)
  }

  /** With the flag, two presses always restore the mask, whatever the
      plaintext ... */
  lemma ToggleTwice(plain: string)
    ensures Toggle(Toggle(false, plain).1, plain) == (Masked, false)
    ensures Toggle(false, plain).0 == plain
  {
  }

  /** ... and it agrees with the code as written on every plaintext that
      does not start with "•••". */
  lemma ToggleAgrees(plain: string, revealed: bool)
    requires !StartsWith(plain, MaskPrefix)
    ensures Toggle(revealed, plain).0 == ToggleText(if revealed then plain else Masked, plain)
  {
    assert StartsWith(Masked, MaskPrefix);
  }

  /** `copy_action`: what reaches the clipboard once the master-password
      gate allowed it: a secure row's decryption, otherwise the value. */
  function ClipboardText(c: Scheme, key: Key, row: DetailRow): (r: string)
    ensures row.secure ==> r == Revealed(c, key, row.value)
    ensures !row.secure && row.value.Text? ==> r == row.value.s
  {
    if row.secure then Revealed(c, key, row.value) else Str(row.value)
  }

  /** The window's height: content plus 150, at most 700. */
  function WindowHeight(content: nat): (r: nat)
    ensures r <= 700 && r <= content + 150
    ensures r == 700 || r == content + 150
  {
    if content + 150 < 700 then content + 150 else 700
  }

  /** The header: the name (or "Без названия" for a row without that
      column), with a star in front for a favourite. */
  function Header(data: Record): (r: string)
    ensures "name" !in data ==> r == (if Truthy(Get(data, "is_favorite")) then "★ Без названия" else "Без названия")
    ensures StartsWith(r, "★ ") || !Truthy(Get(data, "is_favorite"))
  {
    (if Truthy(Get(data, "is_favorite")) then "★ " else "")
    + (if "name" in data then Str(data["name"]) else "Без названия")
  }

  lemma HeaderEndsWithName(data: Record)
    requires "name" in data
    ensures var h := Header(data); var n := Str(data["name"]);
      |h| >= |n| && h[|h| - |n|..] == n
      && (|h| - |n| == 2 <==> Truthy(Get(data, "is_favorite")))
  {
  }

  // ---------------------------------------------------------------------
  // The window

  class DetailModal {
    const db: Db
    const passwordId: nat
    /** `dict(zip(cols, row))`. */
    var data: Record
    var rows: seq<DetailRow>
    /** The text of each row's value entry. */
    var texts: seq<string>
    var colors: seq<string>
    /** Whether a secure row currently shows its plaintext. */
    var revealed: seq<bool>
    /** The grid row of the next label. */
    var currentRow: nat

    ghost predicate Shape()
      reads this
    {
      |texts| == |rows| && |colors| == |rows| && |revealed| == |rows| && currentRow == 2 * |rows|
    }

    /** The state right after laying out: each entry shows `Shown` in its
        initial colour and no secure value is revealed. */
    ghost predicate Initial()
      reads this
    {
      Shape() && forall j :: 0 <= j < |rows| ==>
        texts[j] == Shown(rows[j]) && colors[j] == InitialColor(rows[j]) && !revealed[j]
    }

    /** Opening the view stamps `last_used_at` (when the table has that
        column), reads the row and lays out every row. */
    constructor (db: Db, id: nat, now: string)
      requires db.Valid() && db.passwords.Some? && id in db.records
      modifies db`records
      ensures Initial() && this.db == db && passwordId == id
      ensures db.Valid() && id in db.records && data == db.records[id]
      ensures "last_used_at" in old(db.records)[id] ==>
        db.records == old(db.records)[id := old(db.records)[id]["last_used_at" := Text(now)]]
      ensures "last_used_at" !in old(db.records)[id] ==> db.records == old(db.records)
      ensures rows == DetailRows(db.passwords.value, data)
    {
      this.db := db;
      passwordId := id;
      data := map[];
      rows := [];
      texts := [];
      colors := [];
      revealed := [];
      currentRow := 0;
      new;
      db.SetLastUsed(id, now);
      data := db.records[id];
      CreateUi(db.passwords.value);
    }

    /** `add_grid_row`: one more row, two grid lines further down. */
    method AddGridRow(row: DetailRow)
      requires Initial()
      modifies this`rows, this`texts, this`colors, this`revealed, this`currentRow
      ensures Initial()
      ensures rows == old(rows) + [row] && texts == old(texts) + [Shown(row)]
      ensures colors == old(colors) + [InitialColor(row)] && revealed == old(revealed) + [false]
      ensures currentRow == old(currentRow) + 2
    {
      rows := rows + [row];
      texts := texts + [Shown(row)];
      colors := colors + [InitialColor(row)];
      revealed := revealed + [false];
      currentRow := currentRow + 2;
    }

    /** The rows part of `create_ui`. */
    method CreateUi(cols: seq<string>)
      requires Initial() && rows == []
      modifies this`rows, this`texts, this`colors, this`revealed, this`currentRow
      ensures Initial() && rows == DetailRows(cols, data)
    {
      AddTopRows();
      AddListedRows(cols);
      AddDateRows();
    }

    /** The loop of `create_ui` over the table's columns, in their order. */
    method AddListedRows(cols: seq<string>)
      requires Initial()
      modifies this`rows, this`texts, this`colors, this`revealed, this`currentRow
      ensures Initial() && rows == old(rows) + OtherRows(cols, data)
    {
      ghost var top := rows;
      var i := 0;
      while i < |cols|
        invariant 0 <= i <= |cols|
        invariant Initial() && rows == top + OtherRows(cols[..i], data)
      {
        AddIfListed(cols[i]);
        OtherRowsStep(cols, i, data);
        i := i + 1;
      }
      assert cols[..i] == cols;
    }

    /** One pass of the loop over the columns. */
    method AddIfListed(key: string)
      requires Initial()
      modifies this`rows, this`texts, this`colors, this`revealed, this`currentRow
      ensures Initial() && rows == old(rows) + RowFor(key, data)
    {
      var v := Get(data, key);
      if Listed(key, v) {
        AddGridRow(OtherRow(key, v));
      }
    }

    method AddTopRows()
      requires Initial() && rows == []
      modifies this`rows, this`texts, this`colors, this`revealed, this`currentRow
      ensures Initial() && rows == TopRows(data)
    {
      if Truthy(Get(data, "username")) {
        AddGridRow(DetailRow("Логин/User", Get(data, "username"), false, false, false));
      }
      if Truthy(Get(data, "email")) {
        AddGridRow(DetailRow("Email", Get(data, "email"), false, false, false));
      }
      AddGridRow(PasswordRow(data));
    }

    method AddDateRows()
      requires Initial()
      modifies this`rows, this`texts, this`colors, this`revealed, this`currentRow
      ensures Initial() && rows == old(rows) + DateRows(data)
    {
      if Truthy(Get(data, "created_at")) {
        AddGridRow(DateRow("Создано", Get(data, "created_at")));
      }
      if Truthy(Get(data, "updated_at")) {
        AddGridRow(DateRow("Изменено", Get(data, "updated_at")));
      }
    }

    /** The eye button of secure row `i` as written: the entry's own text
        decides, a text starting with "•••" is replaced by the decryption in
        red, and any other text by the mask in black.  The `revealed` flag
        is neither read nor changed, and no other row changes. */
    method ToggleViewAsWritten(i: nat, c: Scheme, key: Key)
      requires Shape() && i < |rows| && rows[i].secure
      modifies this`texts, this`colors
      ensures Shape()
      ensures texts[i] == ToggleText(old(texts)[i], Revealed(c, key, rows[i].value))
      ensures colors[i] == if StartsWith(old(texts)[i], MaskPrefix) then Red else Black
      ensures forall j :: 0 <= j < |rows| && j != i ==> texts[j] == old(texts)[j] && colors[j] == old(colors)[j]
    {
      if StartsWith(texts[i], MaskPrefix) {
        texts := texts[i := Revealed(c, key, rows[i].value)];
        colors := colors[i := Red];
      } else {
        texts := texts[i := Masked];
        colors := colors[i := Black];
      }
    }

    /** The eye button of secure row `i`, deciding on the row's flag: a
        hidden value is decrypted and shown in red, a shown one is masked
        again in black.  No other row changes. */
    method ToggleView(i: nat, c: Scheme, key: Key)
      requires Shape() && i < |rows| && rows[i].secure
      modifies this`texts, this`colors, this`revealed
      ensures Shape()
      ensures (texts[i], revealed[i]) == Toggle(old(revealed)[i], Revealed(c, key, rows[i].value))
      ensures colors[i] == if revealed[i] then Red else Black
      ensures forall j :: 0 <= j < |rows| && j != i ==>
        texts[j] == old(texts)[j] && colors[j] == old(colors)[j] && revealed[j] == old(revealed)[j]
    {
      var t := Toggle(revealed[i], Revealed(c, key, rows[i].value));
      texts := texts[i := t.0];
      revealed := revealed[i := t.1];
      colors := colors[i := if t.1 then Red else Black];
    }

    /** `copy_action` of row `i`: nothing when the gate refuses; otherwise
        the clipboard text, and `last_used_at` is stamped. */
    method CopyAction(i: nat, allowed: bool, c: Scheme, key: Key, now: string) returns (clip: Option<string>)
      requires i < |rows| && db.Valid()
      modifies db`records
      ensures db.Valid()
      ensures !allowed ==> clip == None && db.records == old(db.records)
      ensures allowed ==> clip == Some(ClipboardText(c, key, rows[i]))
      ensures allowed && passwordId in old(db.records) && "last_used_at" in old(db.records)[passwordId] ==>
        db.records == old(db.records)[passwordId := old(db.records)[passwordId]["last_used_at" := Database.Text(now)]]
      ensures allowed && !(passwordId in old(db.records) && "last_used_at" in old(db.records)[passwordId]) ==>
        db.records == old(db.records)
    {
      if !allowed {
        return None;
      }
      clip := Some(ClipboardText(c, key, rows[i]));
      db.SetLastUsed(passwordId, now);
    }
  }
}
