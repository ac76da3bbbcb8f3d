/** The record list of src/ui/table.py: the ORDER BY a sort label selects,
    the type filter and the name/login search, the projection of each row
    into the cells the tree shows, the checked-id set with its click,
    select-all and clear rules, and the status bar.  SQLite's sort itself
    is not written out: the query result arrives as the ids in the order
    the chosen ORDER BY gives.  Time stamps are whole seconds; `strptime`
    is the parameter `parse`. */
module Table {
  import opened Wrappers
  import opened Text
  import Database

  type Parse = string -> Option<int>

  // ---------------------------------------------------------------------
  // Sorting

  const DefaultOrder: string := "created_at DESC"

  /** `sort_options` of src/app.py, in the order the combobox lists them. */
  const SortOptions: seq<string> := [
    "Дата изменения (новые)", "Дата изменения (старые)",
    "Название (А→Я) ↑", "Название (Я→А) ↓",
    "Логин (А→Я) ↑", "Логин (Я→А) ↓",
    "Последнее использование (недавние)", "Последнее использование (давние)",
    "Избранные в начале", "Избранные в конце"]

  /** The ORDER BY each option stands for, position by position. */
  const SortClauses: seq<string> := [
    "updated_at DESC", "updated_at ASC",
    "name ASC", "name DESC",
    "username ASC", "username DESC",
    "last_used_at DESC", "last_used_at ASC",
    "is_favorite DESC, name ASC", "is_favorite ASC, name ASC"]

  /** The if-chain of `reload_data` that picks the ORDER BY clause. */
  function OrderBy(sortVal: string): (r: string)
    ensures r == DefaultOrder || r in SortClauses
  {
    if sortVal == "Дата изменения (новые)" then "updated_at DESC"
    else if sortVal == "Дата изменения (старые)" then "updated_at ASC"
    else if sortVal == "Название (А→Я) ↑" then "name ASC"
    else if sortVal == "Название (Я→А) ↓" then "name DESC"
    else if sortVal == "Логин (А→Я) ↑" then "username ASC"
    else if sortVal == "Логин (Я→А) ↓" then "username DESC"
    else if sortVal == "Последнее использование (недавние)" then "last_used_at DESC"
    else if sortVal == "Последнее использование (давние)" then "last_used_at ASC"
    else if sortVal == "Избранные в начале" then "is_favorite DESC, name ASC"
    else if sortVal == "Избранные в конце" then "is_favorite ASC, name ASC"
    else DefaultOrder
  }

  /** Every option of the combobox gets its own clause. */
  lemma OrderByOptions(i: nat)
    requires i < |SortOptions|
    ensures OrderBy(SortOptions[i]) == SortClauses[i]
  {
  }

  /** Any other text falls back to the newest-created first. */
  lemma OrderByDefault(sortVal: string)
    requires sortVal !in SortOptions
    ensures OrderBy(sortVal) == DefaultOrder
  {
  }

  // ---------------------------------------------------------------------
  // Filters

  /** The placeholder the search entry shows, after `lower()`. */
  const Placeholder: string := "поиск..."

  /** `search_entry.get().lower()`, with the placeholder read as no search. */
  function SearchTerm(raw: string): (r: string)
    ensures PyLower(r) == r
    ensures r == "" || r == PyLower(raw)
  {
    PyLowerIdempotent(raw);
    if PyLower(raw) == Placeholder then "" else PyLower(raw)
  }

  /** The placeholder as the entry shows it ("Поиск...") searches for
      nothing. */
  lemma PlaceholderSearchesNothing()
    ensures SearchTerm("Поиск...") == ""
  {
    assert PyLower("Поиск...") == Placeholder;
  }

  /** `type_map_filter` of src/app.py: combobox text to type code. */
  function FilterCode(shown: string): string {
    if shown == "Сайт" then "WEB"
    else if shown == "Оффлайн" then "OFFLINE"
    else if shown == "Соц. сеть" then "SOCIAL"
    else if shown == "Почта" then "EMAIL"
    else if shown == "Банк" then "BANK"
    else if shown == "Карта" then "CARD"
    else if shown == "Другое" then "CUSTOM"
    else "Все"
  }

  /** `AND type=?`, left out for "Все". */
  predicate TypeOk(rec: Database.Record, code: string) {
    code == "Все" || Database.Get(rec, "type") == Database.Text(code)
  }

  /** `lower(col) LIKE '%term%'` as SQLite evaluates it: its `lower()` and
      its LIKE fold ASCII letters only, so a Cyrillic capital never matches
      its small letter.  NULL matches nothing. */
  predicate LikeHit(v: Database.Value, term: string) {
    v.Text? && Contains(SqlLower(v.s), term)
  }

  /** The search as evidently intended: both sides folded the way Python's
      `lower()` folds them. */
  predicate FoldHit(v: Database.Value, term: string) {
    v.Text? && Contains(PyLower(v.s), term)
  }

  /** The WHERE clause of `reload_data` as written. */
  predicate MatchesAsWritten(rec: Database.Record, code: string, term: string) {
    TypeOk(rec, code)
    && (term == "" || LikeHit(Database.Get(rec, "name"), term) || LikeHit(Database.Get(rec, "username"), term))
  }

  /** The WHERE clause with the intended case-insensitive search. */
  predicate Matches(rec: Database.Record, code: string, term: string) {
    TypeOk(rec, code)
    && (term == "" || FoldHit(Database.Get(rec, "name"), term) || FoldHit(Database.Get(rec, "username"), term))
  }

  /** "Все" and an empty search keep every record. */
  lemma NoFilterKeepsAll(rec: Database.Record)
    ensures Matches(rec, FilterCode("Все"), SearchTerm("")) && MatchesAsWritten(rec, FilterCode("Все"), SearchTerm(""))
  {
  }

  /** A record whose name contains what was typed, in any case, is found by
      the intended search. */
  lemma FoldHitFindsTyped(name: string, typed: string)
    requires Contains(name, typed)
    ensures FoldHit(Database.Text(name), PyLower(typed))
  {
    var i :| 0 <= i <= |name| - |typed| && OccursAt(name, typed, i);
    assert PyLower(name)[i..i + |typed|] == PyLower(typed);
    assert OccursAt(PyLower(name), PyLower(typed), i);
  }

  /** A value that is not a text, or a text without Cyrillic capitals. */
  predicate NoCyrillicCapital(v: Database.Value) {
    v.Text? ==> forall i :: 0 <= i < |v.s| ==> !IsCyrillicUpper(v.s[i])
  }

  /** On text without Cyrillic capitals, the search as written and the
      intended one agree. */
  lemma SearchAgreesWithoutCyrillicCapitals(v: Database.Value, term: string)
    requires NoCyrillicCapital(v)
    ensures LikeHit(v, term) <==> FoldHit(v, term)
  {
    if v.Text? {
      assert SqlLower(v.s) == PyLower(v.s);
    }
  }

  /** The search as written still finds a name containing what was typed,
      in any case, as long as the name holds no Cyrillic capital. */
  lemma LikeHitFindsTyped(name: string, typed: string)
    requires Contains(name, typed) && NoCyrillicCapital(Database.Text(name))
    ensures LikeHit(Database.Text(name), PyLower(typed))
  {
    FoldHitFindsTyped(name, typed);
    SearchAgreesWithoutCyrillicCapitals(Database.Text(name), PyLower(typed));
  }

  /** Typing "Сбер" does not find the record named "Сбербанк": the term
      becomes "сбер", while SQLite leaves the stored "С" capital. */
  lemma SearchMissesCyrillicCapital()
    ensures SearchTerm("Сбер") == "сбер"
    ensures !LikeHit(Database.Text("Сбербанк"), SearchTerm("Сбер"))
    ensures FoldHit(Database.Text("Сбербанк"), SearchTerm("Сбер"))
  {
    var term := "сбер";
    assert PyLower("Сбер") == term;
    assert PyLower("Сбер") != Placeholder;
    var stored := SqlLower("Сбербанк");
    assert stored[0] == 'С';
    forall i | 0 <= i <= |stored| - |term|
      ensures !OccursAt(stored, term, i)
    {
      assert stored[i..i + |term|][0] == stored[i];
    }
    assert OccursAt(PyLower("Сбербанк"), term, 0);
  }

  /** Which WHERE clause a query runs: the one `reload_data` sends to
      SQLite, or the corrected one that folds Cyrillic as well. */
  datatype Search = AsWritten | Intended

  predicate Passes(rec: Database.Record, code: string, term: string, search: Search) {
    match search
    case AsWritten => MatchesAsWritten(rec, code, term)
    case Intended => Matches(rec, code, term)
  }

  /** The records the query returns under `search`, in the order the ORDER
      BY gives: with `AsWritten` the program's own query, with `Intended`
      the corrected one. */
  function Select(records: map<nat, Database.Record>, order: seq<nat>, code: string, term: string, search: Search)
    : (r: seq<nat>)
    ensures |r| <= |order|
    ensures forall id :: id in r ==> id in order && id in records && Passes(records[id], code, term, search)
  {
    if order == [] then []
    else
      var rest := Select(records, order[..|order| - 1], code, term, search);
      var id := order[|order| - 1];
      if id in records && Passes(records[id], code, term, search) then rest + [id] else rest
  }

  /** The query misses no record: every id of `order` that passes the
      filter is returned. */
  lemma {:induction false} SelectComplete(records: map<nat, Database.Record>, order: seq<nat>, code: string, term: string,
                                          search: Search, id: nat)
    requires id in order && id in records && Passes(records[id], code, term, search)
    ensures id in Select(records, order, code, term, search)
  {
    var init := order[..|order| - 1];
    if id != order[|order| - 1] {
      var j :| 0 <= j < |order| && order[j] == id;
      assert init[j] == id;
      SelectComplete(records, init, code, term, search, id);
    }
  }

  /** The positions of `order` whose id is known and passes the filter,
      in increasing order. */
  ghost function Kept(records: map<nat, Database.Record>, order: seq<nat>, code: string, term: string, search: Search)
    : (r: seq<nat>)
    ensures forall k :: 0 <= k < |r| ==> r[k] < |order|
  {
    if order == [] then []
    else
      var n := |order| - 1;
      Kept(records, order[..n], code, term, search)
      + (if order[n] in records && Passes(records[order[n]], code, term, search) then [n] else [])
  }

  /** A position is kept exactly when its id is known and passes, and the
      kept positions increase. */
  lemma {:induction false} KeptExactly(records: map<nat, Database.Record>, order: seq<nat>, code: string, term: string,
                                       search: Search)
    ensures forall k, l :: 0 <= k < l < |Kept(records, order, code, term, search)| ==>
              Kept(records, order, code, term, search)[k] < Kept(records, order, code, term, search)[l]
    ensures forall i :: 0 <= i < |order| ==>
              (i in Kept(records, order, code, term, search) <==> order[i] in records && Passes(records[order[i]], code, term, search))
  {
    if order != [] {
      var n := |order| - 1;
      var init := order[..n];
      KeptExactly(records, init, code, term, search);
      assert forall i :: 0 <= i < n ==> init[i] == order[i];
    }
  }

  /** The query is `order` filtered: its k-th id is the id at the k-th
      kept position. */
  lemma {:induction false} SelectIsKept(records: map<nat, Database.Record>, order: seq<nat>, code: string, term: string,
                                        search: Search)
    ensures |Kept(records, order, code, term, search)| == |Select(records, order, code, term, search)|
    ensures forall k :: 0 <= k < |Select(records, order, code, term, search)| ==>
              Select(records, order, code, term, search)[k] == order[Kept(records, order, code, term, search)[k]]
  {
    if order != [] {
      var n := |order| - 1;
      var init := order[..n];
      SelectIsKept(records, init, code, term, search);
      assert forall i :: 0 <= i < n ==> init[i] == order[i];
    }
  }

  /** The query is `order` filtered: the ids come out at increasing
      positions of `order`, and a position is taken exactly when its id is
      known and passes the filter. */
  lemma SelectPositions(records: map<nat, Database.Record>, order: seq<nat>, code: string, term: string, search: Search)
    returns (idx: seq<nat>)
    ensures |idx| == |Select(records, order, code, term, search)|
    ensures forall k :: 0 <= k < |idx| ==> idx[k] < |order| && Select(records, order, code, term, search)[k] == order[idx[k]]
    ensures forall k, l :: 0 <= k < l < |idx| ==> idx[k] < idx[l]
    ensures forall i :: 0 <= i < |order| ==>
              (i in idx <==> order[i] in records && Passes(records[order[i]], code, term, search))
  {
    idx := Kept(records, order, code, term, search);
    SelectIsKept(records, order, code, term, search);
    KeptExactly(records, order, code, term, search);
  }

  /** Each id once: a table whose ids are distinct gives distinct rows. */
  lemma SelectDistinct(records: map<nat, Database.Record>, order: seq<nat>, code: string, term: string, search: Search)
    requires Distinct(order)
    ensures Distinct(Select(records, order, code, term, search))
  {
    var idx := SelectPositions(records, order, code, term, search);
  }

  /** As written, typing "Сбер" leaves a table holding only "Сбербанк"
      empty, while the corrected query returns that record. */
  lemma SelectMissesCyrillicCapital(rec: Database.Record, id: nat)
    requires Database.Get(rec, "name") == Database.Text("Сбербанк")
    requires Database.Get(rec, "username") == Database.Null
    ensures Select(map[id := rec], [id], "Все", SearchTerm("Сбер"), AsWritten) == []
    ensures Select(map[id := rec], [id], "Все", SearchTerm("Сбер"), Intended) == [id]
  {
    SearchMissesCyrillicCapital();
    var records := map[id := rec];
    assert [id][..0] == [];
    assert !Passes(records[id], "Все", SearchTerm("Сбер"), AsWritten);
    assert Passes(records[id], "Все", SearchTerm("Сбер"), Intended);
  }

  /** On a table without Cyrillic capitals in names and logins, the query
      as written returns exactly what the corrected one returns. */
  lemma {:induction false} SelectAgreesWithoutCyrillicCapitals(records: map<nat, Database.Record>, order: seq<nat>,
                                                               code: string, term: string)
    requires forall id :: id in records ==> NoCyrillicCapital(Database.Get(records[id], "name"))
                                            && NoCyrillicCapital(Database.Get(records[id], "username"))
    ensures Select(records, order, code, term, AsWritten) == Select(records, order, code, term, Intended)
  {
    if order != [] {
      SelectAgreesWithoutCyrillicCapitals(records, order[..|order| - 1], code, term);
      var id := order[|order| - 1];
      if id in records {
        SearchAgreesWithoutCyrillicCapitals(Database.Get(records[id], "name"), term);
        SearchAgreesWithoutCyrillicCapitals(Database.Get(records[id], "username"), term);
      }
    }
  }

  // ---------------------------------------------------------------------
  // Projection of one row

  /** How a cell is shown; Tk's rendering of NULL is not modelled and
      shows as "". */
  function Cell(v: Database.Value): string {
    match v
    case Text(s) => s
    case Int(n) => IntToString(n)
    case Null => ""
  }

  /** `type_map_display.get(ptype, ptype)`. */
  function TypeShown(v: Database.Value): string {
    if v == Database.Text("WEB") then "Сайт"
    else if v == Database.Text("OFFLINE") then "Оффлайн"
    else if v == Database.Text("SOCIAL") then "Соц. сеть"
    else if v == Database.Text("EMAIL") then "Почта"
    else if v == Database.Text("BANK") then "Банк"
    else if v == Database.Text("CARD") then "Карта"
    else if v == Database.Text("CUSTOM") then "Другое"
    else Cell(v)
  }

  /** `user if user else (email if email else "-")`. */
  function LoginShown(user: Database.Value, email: Database.Value): (r: string)
    ensures r != ""
    ensures Database.Truthy(user) ==> r == Cell(user)
    ensures !Database.Truthy(user) && Database.Truthy(email) ==> r == Cell(email)
    ensures !Database.Truthy(user) && !Database.Truthy(email) ==> r == "-"
  {
    if Database.Truthy(user) then Cell(user)
    else if Database.Truthy(email) then Cell(email)
    else "-"
  }

  /** `date.split()[0] if date else "-"`: None where Python raises (a
      number has no `split`, a blank text has no first token). */
  function DateShown(v: Database.Value): (r: Option<string>)
    ensures !Database.Truthy(v) ==> r == Some("-")
    ensures v.Text? && v.s != "" ==> r == FirstToken(v.s)
    ensures r.Some? && r.value != "-" ==> v.Text? && Contains(v.s, r.value)
  {
    if !Database.Truthy(v) then Some("-")
    else if v.Text? then
      var token := FirstToken(v.s);
      if token.Some? then FirstTokenContained(v.s); token else token
    else None
  }

  /** `("★ " + name) if is_fav else name`: None where Python raises (a
      non-text name after the star). */
  function NameShown(name: Database.Value, fav: Database.Value): (r: Option<string>)
    ensures Database.Truthy(fav) ==> (r.Some? <==> name.Text?)
    ensures Database.Truthy(fav) && name.Text? ==> r == Some("★ " + name.s)
    ensures !Database.Truthy(fav) ==> r == Some(Cell(name))
  {
    if Database.Truthy(fav) then (if name.Text? then Some("★ " + name.s) else None)
    else Some(Cell(name))
  }

  /** `timedelta.days`: whole days, rounded down (Dafny's `/` by a
      positive divisor is the floor). */
  function Days(seconds: int): int {
    seconds / 86400
  }

  /** The "expired" tag: only with `notify_expired` on, for a text stamp
      `strptime` reads, more than 365 whole days before `now`.  Every other
      case (no stamp, a number, a stamp that does not parse) is caught and
      gives no tag. */
  function Expired(notifyExpired: bool, updated: Database.Value, now: int, parse: Parse): (r: bool)
    ensures r ==> notifyExpired && updated.Text? && updated.s != ""
    ensures r <==> notifyExpired && Database.Truthy(updated) && updated.Text?
                   && parse(BeforeFirst(updated.s, '.')).Some?
                   && now - parse(BeforeFirst(updated.s, '.')).value >= 366 * 86400
  {
    if notifyExpired && Database.Truthy(updated) && updated.Text? then
      match parse(BeforeFirst(updated.s, '.'))
      case Some(dt) => Days(now - dt) > 365
      case None => false
    else false
  }

  const Masked: string := "••••••••"

  /** One line of the tree: its id tag, its cells and the "expired" tag. */
  datatype ShownRow = ShownRow(id: nat, cells: seq<string>, expired: bool)

  /** What the projection depends on besides the record: `checked_items`,
      the two settings and the clock. */
  datatype View = View(checked: set<nat>, notifyExpired: bool, showPasswords: bool, now: int, parse: Parse)

  /** The cells `reload_data` inserts for one record, or None where Python
      raises. */
  function Project(id: nat, rec: Database.Record, v: View): (r: Option<ShownRow>)
    ensures r.Some? ==> r.value.id == id && |r.value.cells| == (if v.showPasswords then 7 else 6)
    ensures r.Some? ==> r.value.cells[0] == (if id in v.checked then "☑" else "☐")
    ensures r.Some? ==> r.value.cells[1] == TypeShown(Database.Get(rec, "type"))
    ensures r.Some? ==> NameShown(Database.Get(rec, "name"), Database.Get(rec, "is_favorite")) == Some(r.value.cells[2])
    ensures r.Some? ==> r.value.cells[3] == LoginShown(Database.Get(rec, "username"), Database.Get(rec, "email"))
    ensures r.Some? ==> r.value.cells[4] == (if Database.Truthy(Database.Get(rec, "category")) then Cell(Database.Get(rec, "category")) else "-")
    ensures r.Some? && v.showPasswords ==> r.value.cells[5] == Masked
    ensures r.Some? ==> DateShown(Database.Get(rec, "created_at")) == Some(r.value.cells[|r.value.cells| - 1])
    ensures r.Some? ==> r.value.expired == Expired(v.notifyExpired, Database.Get(rec, "updated_at"), v.now, v.parse)
  {
    var name := NameShown(Database.Get(rec, "name"), Database.Get(rec, "is_favorite"));
    var date := DateShown(Database.Get(rec, "created_at"));
    if name.None? || date.None? then None
    else
      var cat := Database.Get(rec, "category");
      var cells := [if id in v.checked then "☑" else "☐",
                    TypeShown(Database.Get(rec, "type")), name.value,
                    LoginShown(Database.Get(rec, "username"), Database.Get(rec, "email")),
                    if Database.Truthy(cat) then Cell(cat) else "-"]
                   + (if v.showPasswords then [Masked] else []) + [date.value];
      Some(ShownRow(id, cells, Expired(v.notifyExpired, Database.Get(rec, "updated_at"), v.now, v.parse)))
  }

  /** A row raises exactly when its name or its date does. */
  lemma ProjectRaises(id: nat, rec: Database.Record, v: View)
    ensures Project(id, rec, v).None? <==> NameShown(Database.Get(rec, "name"), Database.Get(rec, "is_favorite")).None?
                                           || DateShown(Database.Get(rec, "created_at")).None?
  {
  }

  /** The rows of the loop over the query result: every projected row up
      to the first one that raises, and whether the loop finished. */
  function ProjectAll(records: map<nat, Database.Record>, ids: seq<nat>, v: View): (r: (seq<ShownRow>, bool))
    requires forall id :: id in ids ==> id in records
    ensures |r.0| <= |ids|
    ensures r.1 <==> |r.0| == |ids|
  {
    if ids == [] then ([], true)
    else
      match Project(ids[0], records[ids[0]], v)
      case None => ([], false)
      case Some(row) =>
        var rest := ProjectAll(records, ids[1..], v);
        ([row] + rest.0, rest.1)
  }

  /** The rows keep the order of the query result, one per fetched id. */
  lemma {:induction false} ProjectAllInOrder(records: map<nat, Database.Record>, ids: seq<nat>, v: View, j: nat)
    requires forall id :: id in ids ==> id in records
    requires j < |ProjectAll(records, ids, v).0|
    ensures ProjectAll(records, ids, v).0[j].id == ids[j]
  {
    var rest := ProjectAll(records, ids[1..], v).0;
    var row :| ProjectAll(records, ids, v).0 == [row] + rest && row.id == ids[0];
    if j > 0 {
      ProjectAllInOrder(records, ids[1..], v, j - 1);
      assert ids[1..][j - 1] == ids[j];
    }
  }

  /** One step of the loop: the rows from position `i` on are the row of
      `ids[i]` followed by the rows after it, or nothing if it raises. */
  lemma ProjectAllStep(records: map<nat, Database.Record>, ids: seq<nat>, v: View, i: nat, row: Option<ShownRow>)
    requires forall id :: id in ids ==> id in records
    requires i < |ids| && row == Project(ids[i], records[ids[i]], v)
    ensures row.None? ==> ProjectAll(records, ids[i..], v) == ([], false)
    ensures row.Some? ==> ProjectAll(records, ids[i..], v).0 == [row.value] + ProjectAll(records, ids[i + 1..], v).0
    ensures row.Some? ==> ProjectAll(records, ids[i..], v).1 == ProjectAll(records, ids[i + 1..], v).1
  {
    assert ids[i..][0] == ids[i];
    assert ids[i..][1..] == ids[i + 1..];
  }

  // ---------------------------------------------------------------------
  // Status bar

  /** SQLite's order on the `COALESCE(updated_at, created_at)` values:
      NULL first, then numbers, then text by code point. */
  predicate SqlLe(a: Database.Value, b: Database.Value) {
    match (a, b)
    case (Null, _) => true
    case (Int(x), Int(y)) => x <= y
    case (Int(_), Text(_)) => true
    case (Text(x), Text(y)) => StrCmp(x, y) <= 0
    case _ => false
  }

  lemma SqlLeTotal(a: Database.Value, b: Database.Value)
    ensures SqlLe(a, b) || SqlLe(b, a)
  {
    if a.Text? && b.Text? {
      StrCmpAntisym(a.s, b.s);
    }
  }

  lemma SqlLeTrans(a: Database.Value, b: Database.Value, c: Database.Value)
    requires SqlLe(a, b) && SqlLe(b, c)
    ensures SqlLe(a, c)
  {
    if a.Text? && b.Text? && c.Text? {
      StrCmpTrans(a.s, b.s, c.s);
    }
  }

  /** `ORDER BY last_mod DESC LIMIT 1`: the greatest value, None on an
      empty table. */
  function Latest(vs: seq<Database.Value>): (r: Option<Database.Value>)
    ensures r.Some? <==> vs != []
    ensures r.Some? ==> r.value in vs
  {
    if vs == [] then None
    else
      var m := Latest(vs[..|vs| - 1]);
      var last := vs[|vs| - 1];
      if m.None? || SqlLe(m.value, last) then Some(last) else m
  }

  /** The value is not below any other. */
  lemma {:induction false} LatestIsGreatest(vs: seq<Database.Value>, v: Database.Value)
    requires v in vs
    ensures SqlLe(v, Latest(vs).value)
  {
    var init := vs[..|vs| - 1];
    var last := vs[|vs| - 1];
    var m := Latest(init);
    if v == last {
      if m.Some? && !SqlLe(m.value, last) {
        SqlLeTotal(m.value, last);
      }
    } else {
      var j :| 0 <= j < |vs| && vs[j] == v;
      assert init[j] == v;
      LatestIsGreatest(init, v);
      if SqlLe(m.value, last) {
        SqlLeTrans(v, m.value, last);
      }
    }
  }

  /** `COALESCE(updated_at, created_at)` of each listed record. */
  function Stamps(records: map<nat, Database.Record>, ids: seq<nat>): (r: seq<Database.Value>)
    requires forall id :: id in ids ==> id in records
    ensures |r| == |ids|
  {
    seq(|ids|, i requires 0 <= i < |ids| =>
      var rec := records[ids[i]];
      if Database.Get(rec, "updated_at") != Database.Null then Database.Get(rec, "updated_at")
      else Database.Get(rec, "created_at"))
  }

  /** `int(diff.total_seconds() / 60)`: truncation toward zero. */
  function Minutes(seconds: int): (m: int)
    ensures seconds >= 0 ==> m * 60 <= seconds < (m + 1) * 60
    ensures seconds < 0 ==> m <= 0 && (m - 1) * 60 < seconds
  {
    if seconds >= 0 then seconds / 60 else -((-seconds) / 60)
  }

  /** The relative-time bucket of the status bar. */
  function Bucket(mins: int): (r: string)
    ensures mins < 1 ==> r == "только что"
    ensures 1 <= mins < 60 ==> r == NatToString(mins) + " мин назад"
    ensures 60 <= mins < 1440 ==> r == NatToString(mins / 60) + " ч назад"
    ensures 1440 <= mins ==> r == NatToString(mins / 1440) + " дн назад"
  {
    if mins < 1 then "только что"
    else if mins < 60 then NatToString(mins) + " мин назад"
    else if mins < 1440 then NatToString(mins / 60) + " ч назад"
    else NatToString(mins / 1440) + " дн назад"
  }

  /** The hour and day buckets never show zero: an hour bucket holds 1..23
      hours, a day bucket at least one day. */
  lemma BucketCounts(mins: int)
    ensures 60 <= mins < 1440 ==> 1 <= mins / 60 <= 23
    ensures 1440 <= mins ==> mins / 1440 >= 1
  {
  }

  /** `last_change`: "нет данных" unless the latest stamp is a non-empty
      text that `strptime` reads. */
  function LastChange(latest: Option<Database.Value>, now: int, parse: Parse): (r: string)
    ensures latest.None? ==> r == "нет данных"
    ensures latest.Some? && !latest.value.Text? ==> r == "нет данных"
  {
    if latest.Some? && Database.Truthy(latest.value) && latest.value.Text? then
      match parse(BeforeFirst(latest.value.s, '.'))
      case Some(dt) => Bucket(Minutes(now - dt))
      case None => "нет данных"
    else "нет данных"
  }

  /** The status line: it opens with the number of rows shown and ends with
      the last-change wording. */
  function StatusText(total: nat, selected: nat, lastChange: string): (r: string)
    ensures StartsWith(r, "Статус: " + NatToString(total) + " записей")
    ensures |r| >= |lastChange| && r[|r| - |lastChange|..] == lastChange
  {
    "Статус: " + NatToString(total) + " записей | Выбрано: " + NatToString(selected)
    + " | Последнее изменение: " + lastChange
  }

  /** The edit button works on exactly one checked record. */
  function EditEnabled(selected: nat): bool { selected == 1 }

  /** The delete button's label, with the count when something is checked. */
  function DeleteLabel(selected: nat): (r: string)
    ensures selected == 0 <==> r == " Удалить"
    ensures StartsWith(r, " Удалить")
  {
    if selected > 0 then " Удалить" + " (" + NatToString(selected) + ")" else " Удалить"
  }

  // ---------------------------------------------------------------------
  // Clicks

  /** What a left click does. */
  datatype ClickAction =
    | Ignore
    | ClearAll
    | CopyLogin(login: string, id: nat)
    | CopyPassword(id: nat)
    | Toggle(id: nat)

  /** `on_click`: a click on a heading or separator does nothing, one
      outside the rows clears the selection, one on a real login copies it,
      one on the password cell (shown only with `show_passwords_table`, in
      column 6) copies the password once `verify_master_password` agrees,
      and every other click toggles the row's check mark.  `verified` is
      the answer of the confirmation, asked only on the password cell. */
  function OnClick(region: string, row: Option<ShownRow>, col: nat, showPasswords: bool, verified: bool)
    : (r: ClickAction)
    requires row.Some? ==> |row.value.cells| >= 4
    ensures region in ["heading", "separator"] ==> r == Ignore
    ensures region !in ["heading", "separator"] && row.None? ==> r == ClearAll
    ensures r.Toggle? <==> region !in ["heading", "separator"] && row.Some?
                           && !(col == 4 && row.value.cells[3] != "" && row.value.cells[3] != "-")
                           && !(showPasswords && col == 6 && verified)
    ensures r.Toggle? ==> r.id == row.value.id
  {
    if region in ["heading", "separator"] then Ignore
    else if row.None? then ClearAll
    else if col == 4 && row.value.cells[3] != "" && row.value.cells[3] != "-" then CopyLogin(row.value.cells[3], row.value.id)
    else if showPasswords && col == 6 && verified then CopyPassword(row.value.id)
    else Toggle(row.value.id)
  }

  /** A click on the password cell whose confirmation is refused toggles
      the row, as a click anywhere else on it would. */
  lemma RefusedPasswordClickToggles(row: ShownRow)
    requires |row.cells| >= 4
    ensures OnClick("cell", Some(row), 6, true, false) == Toggle(row.id)
  {
  }

  /** Membership of one id flipped. */
  function Toggled(s: set<nat>, id: nat): (r: set<nat>)
    ensures id in r <==> id !in s
    ensures forall x :: x != id ==> (x in r <==> x in s)
  {
    if id in s then s - {id} else s + {id}
  }

  /** Clicking the same row twice restores the checked set. */
  lemma ToggledTwice(s: set<nat>, id: nat)
    ensures Toggled(Toggled(s, id), id) == s
  {
  }

  /** `toggle_all_checks` as written: it compares only the sizes, so a
      checked id that the filter hides makes the set look full. */
  function ToggleAllAsWritten(checked: set<nat>, shown: seq<nat>): (r: set<nat>)
    ensures r == {} || r == SetOf(shown)
    ensures shown != [] ==> (r == {} <==> |checked| == |shown|)
  {
    if |checked| == |shown| && |shown| > 0 then {}
    else
      assert shown != [] ==> shown[0] in SetOf(shown);
      SetOf(shown)
  }

  /** `toggle_all_checks` as evidently intended: clear when every shown
      row is already checked, otherwise check them all. */
  function ToggleAll(checked: set<nat>, shown: seq<nat>): (r: set<nat>)
    ensures shown != [] && SetOf(shown) <= checked ==> r == {}
    ensures !(SetOf(shown) <= checked) ==> r == SetOf(shown)
  {
    if SetOf(shown) <= checked && |shown| > 0 then {} else SetOf(shown)
  }

  /** With an unchecked row on screen, the intended toggle checks every
      shown row; pressing it again clears them. */
  lemma ToggleAllChecksUnchecked(checked: set<nat>, shown: seq<nat>, id: nat)
    requires id in shown && id !in checked
    ensures forall x :: x in shown ==> x in ToggleAll(checked, shown)
    ensures ToggleAll(ToggleAll(checked, shown), shown) == {}
  {
  }

  /** Rows 1 and 2 on screen, 1 checked and a hidden 3 checked: the code
      clears everything although row 2 was unchecked. */
  lemma ToggleAllAsWrittenClearsUnchecked()
    ensures 2 !in {1, 3} && 2 in [1, 2]
    ensures ToggleAllAsWritten({1, 3}, [1, 2]) == {}
    ensures ToggleAll({1, 3}, [1, 2]) == {1, 2}
  {
    var s: set<nat> := {1, 3};
    assert |s| == 2;
    assert SetOf([1, 2]) == {1, 2};
    assert 2 !in s;
  }

  /** When the shown ids are distinct and the checked set holds only shown
      ids, the two agree. */
  lemma ToggleAllAgreesOnShownIds(checked: set<nat>, shown: seq<nat>)
    requires checked <= SetOf(shown)
    requires forall i, j :: 0 <= i < j < |shown| ==> shown[i] != shown[j]
    ensures ToggleAllAsWritten(checked, shown) == ToggleAll(checked, shown)
  {
    DistinctCard(shown);
    if |checked| == |shown| {
      SubsetOfEqualSize(checked, SetOf(shown));
    }
    if SetOf(shown) <= checked {
      assert checked == SetOf(shown);
    }
  }

  lemma {:induction false} DistinctCard(s: seq<nat>)
    requires forall i, j :: 0 <= i < j < |s| ==> s[i] != s[j]
    ensures |SetOf(s)| == |s|
  {
    if s != [] {
      var init := s[..|s| - 1];
      DistinctCard(init);
      assert SetOf(s) == SetOf(init) + {s[|s| - 1]};
      assert s[|s| - 1] !in init;
    }
  }

  lemma SubsetOfEqualSize(a: set<nat>, b: set<nat>)
    requires a <= b && |a| == |b|
    ensures a == b
  {
    if a != b {
      var x :| x in b && x !in a;
      assert a <= b - {x};
      assert |b - {x}| == |b| - 1;
      SubsetCard(a, b - {x});
    }
  }

  lemma SubsetCard(a: set<nat>, b: set<nat>)
    requires a <= b
    ensures |a| <= |b|
  {
    assert b == a + (b - a);
  }

  // ---------------------------------------------------------------------
  // The table

  lemma AppendOne(a: seq<ShownRow>, x: ShownRow, b: seq<ShownRow>)
    ensures a + [x] + b == a + ([x] + b)
  {
  }

  /** The loop of `reload_data` over the fetched rows: each is projected
      and appended, and the first one that raises ends the loop. */
  method Fill(records: map<nat, Database.Record>, ids: seq<nat>, v: View) returns (shown: seq<ShownRow>, finished: bool)
    requires forall id :: id in ids ==> id in records
    ensures (shown, finished) == ProjectAll(records, ids, v)
  {
    ghost var goal := ProjectAll(records, ids, v);
    shown := [];
    finished := true;
    var i := 0;
    assert ids[i..] == ids;
    while i < |ids|
      invariant 0 <= i <= |ids|
      invariant shown + ProjectAll(records, ids[i..], v).0 == goal.0
      invariant ProjectAll(records, ids[i..], v).1 == goal.1
    {
      var row := Project(ids[i], records[ids[i]], v);
      ProjectAllStep(records, ids, v, i, row);
      if row.None? {
        assert shown + [] == shown;
        finished := false;
        return;
      }
      AppendOne(shown, row.value, ProjectAll(records, ids[i + 1..], v).0);
      shown := shown + [row.value];
      i := i + 1;
    }
    assert ids[i..] == [];
    assert shown + [] == shown;
  }

  /** The check column's mark for a checked or an unchecked row. */
  function MarkOf(isChecked: bool): string {
    if isChecked then "☑" else "☐"
  }

  /** `vals[0] = mark`: the row with its first cell replaced. */
  function WithMark(row: ShownRow, mark: string): (r: ShownRow)
    ensures r.id == row.id && r.expired == row.expired && |r.cells| == |row.cells|
    ensures row.cells != [] ==> r.cells[0] == mark && r.cells[1..] == row.cells[1..]
  {
    if row.cells == [] then row else row.(cells := [mark] + row.cells[1..])
  }

  /** Every row of the tree given the same mark. */
  function MarkAll(rows: seq<ShownRow>, mark: string): (r: seq<ShownRow>)
    ensures |r| == |rows| && forall i :: 0 <= i < |rows| ==> r[i] == WithMark(rows[i], mark)
  {
    seq(|rows|, i requires 0 <= i < |rows| => WithMark(rows[i], mark))
  }

  /** The rows of record `id` given `mark`; the others are left alone. */
  function MarkId(rows: seq<ShownRow>, id: nat, mark: string): (r: seq<ShownRow>)
    ensures |r| == |rows|
    ensures forall i :: 0 <= i < |rows| ==> r[i] == if rows[i].id == id then WithMark(rows[i], mark) else rows[i]
  {
    seq(|rows|, i requires 0 <= i < |rows| => if rows[i].id == id then WithMark(rows[i], mark) else rows[i])
  }

  /** Every row's mark shows whether its id is checked. */
  ghost predicate MarksFollow(rows: seq<ShownRow>, checked: set<nat>) {
    forall i :: 0 <= i < |rows| && rows[i].cells != [] ==> rows[i].cells[0] == MarkOf(rows[i].id in checked)
  }

  /** `reload_data` draws each row's mark from the checked set. */
  lemma {:induction false} ProjectAllMarks(records: map<nat, Database.Record>, ids: seq<nat>, v: View)
    requires forall id :: id in ids ==> id in records
    ensures MarksFollow(ProjectAll(records, ids, v).0, v.checked)
  {
    if ids != [] {
      match Project(ids[0], records[ids[0]], v)
      case None =>
      case Some(row) =>
        ProjectAllMarks(records, ids[1..], v);
    }
  }

  /** After a right click the checked set is that row alone, but the marks
      are not redrawn: another row that was checked still shows "☑". */
  lemma ContextSelectLeavesMarks(rows: seq<ShownRow>, checked: set<nat>, id: nat, j: nat)
    requires MarksFollow(rows, checked)
    requires j < |rows| && rows[j].cells != [] && rows[j].id in checked && rows[j].id != id
    ensures !MarksFollow(rows, {id})
  {
    assert rows[j].cells[0] == "☑";
    assert MarkOf(rows[j].id in {id}) == "☐";
  }

  class TableView {
    /** The rows of the tree, top to bottom. */
    var rows: seq<ShownRow>
    /** `checked_items`. */
    var checked: set<nat>

    constructor ()
      ensures rows == [] && checked == {}
    {
      rows := [];
      checked := {};
    }

    function Ids(): (r: seq<nat>)
      reads this
      ensures |r| == |rows| && forall i :: 0 <= i < |rows| ==> r[i] == rows[i].id
    {
      seq(|rows|, i requires 0 <= i < |rows| reads this => rows[i].id)
    }

    /** `reload_data`: the tree is emptied and refilled row by row from the
        query result; a row that raises ends the loop, leaving the rows
        before it.  The checked set is kept.  `order` is every id in the
        order the returned clause sorts by.  With `search == AsWritten` this
        is the program's query; `Intended` gives the corrected search. */
    method Reload(records: map<nat, Database.Record>, order: seq<nat>, filterShown: string, rawSearch: string,
                  sortVal: string, notifyExpired: bool, showPasswords: bool, now: int, parse: Parse, search: Search)
      returns (clause: string, finished: bool)
      requires SetOf(order) == records.Keys && Distinct(order)
      modifies this`rows
      ensures clause == OrderBy(sortVal)
      ensures var ids := Select(records, order, FilterCode(filterShown), SearchTerm(rawSearch), search);
        (rows, finished) == ProjectAll(records, ids, View(checked, notifyExpired, showPasswords, now, parse))
      ensures MarksFollow(rows, checked)
    {
      clause := OrderBy(sortVal);
      var ids := Select(records, order, FilterCode(filterShown), SearchTerm(rawSearch), search);
      var v := View(checked, notifyExpired, showPasswords, now, parse);
      rows, finished := Fill(records, ids, v);
      ProjectAllMarks(records, ids, v);
    }

    /** A click, performed: toggling flips the id and redraws its row's
        mark, clearing empties the set and blanks every mark, copying
        leaves both. The marks keep showing the checked set. */
    method Click(action: ClickAction)
      modifies this`checked, this`rows
      ensures action.Toggle? ==> checked == Toggled(old(checked), action.id)
      ensures action.Toggle? ==> rows == MarkId(old(rows), action.id, MarkOf(action.id in checked))
      ensures action.ClearAll? ==> checked == {} && rows == MarkAll(old(rows), "☐")
      ensures !action.Toggle? && !action.ClearAll? ==> checked == old(checked) && rows == old(rows)
      ensures MarksFollow(old(rows), old(checked)) ==> MarksFollow(rows, checked)
    {
      match action
      case Toggle(id) =>
        var mark;
        if id in checked {
          checked := checked - {id};
          mark := "☐";
        } else {
          checked := checked + {id};
          mark := "☑";
        }
        rows := MarkId(rows, id, mark);
      case ClearAll =>
        ClearSelection();
      case _ =>
    }

    /** `clear_selection`: no id is checked and every mark is "☐". */
    method ClearSelection()
      modifies this`checked, this`rows
      ensures checked == {} && rows == MarkAll(old(rows), "☐")
      ensures MarksFollow(rows, checked)
    {
      checked := {};
      rows := MarkAll(rows, "☐");
    }

    /** `toggle_all_checks` as written: the sizes of the checked set and of
        the shown rows decide, and every row gets the one mark chosen. */
    method ToggleAllChecksAsWritten()
      modifies this`checked, this`rows
      ensures checked == ToggleAllAsWritten(old(checked), old(Ids()))
      ensures rows == MarkAll(old(rows), MarkOf(checked != {}))
      ensures MarksFollow(rows, checked)
    {
      var ids := Ids();
      var mark;
      if |checked| == |ids| && |ids| > 0 {
        checked := {};
        mark := "☐";
      } else {
        checked := SetOf(ids);
        mark := "☑";
      }
      rows := MarkAll(rows, mark);
    }

    /** `toggle_all_checks`, with the intended test. */
    method ToggleAllChecks()
      modifies this`checked, this`rows
      ensures checked == ToggleAll(old(checked), old(Ids()))
      ensures rows == MarkAll(old(rows), MarkOf(checked != {}))
      ensures MarksFollow(rows, checked)
    {
      var ids := Ids();
      var mark;
      if SetOf(ids) <= checked && |ids| > 0 {
        checked := {};
        mark := "☐";
      } else {
        checked := SetOf(ids);
        mark := "☑";
      }
      rows := MarkAll(rows, mark);
    }

    /** A right click on a row: that row alone becomes checked. The marks
        are not redrawn (`ContextSelectLeavesMarks`). */
    method ContextSelect(id: nat)
      modifies this`checked
      ensures checked == {id}
    {
      checked := {id};
    }

    /** `update_status_bar`: the text, whether editing is enabled, and the
        delete button's label. */
    method StatusBar(records: map<nat, Database.Record>, all: seq<nat>, now: int, parse: Parse)
      returns (text: string, edit: bool, deleteLabel: string)
      requires SetOf(all) == records.Keys
      ensures text == StatusText(|rows|, |checked|, LastChange(Latest(Stamps(records, all)), now, parse))
      ensures edit <==> |checked| == 1
      ensures deleteLabel == DeleteLabel(|checked|)
    {
      var latest := Latest(Stamps(records, all));
      text := StatusText(|rows|, |checked|, LastChange(latest, now, parse));
      edit := EditEnabled(|checked|);
      deleteLabel := DeleteLabel(|checked|);
    }
  }
}
