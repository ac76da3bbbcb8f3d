/** The add/edit window of src/windows/add_edit.py as a state machine: the
    rows of inputs it shows, what each input holds, the CUSTOM layout that
    grows one field at a time, `fill_data` and `save`.  The widgets are
    reduced to what they hold; the schema, validators and the save chain
    come from the Records module. */
module EditForm {
  import opened Wrappers
  import opened Text
  import opened Crypto
  import opened Records
  import Database

  // ---------------------------------------------------------------------
  // Widgets

  /** A one-line Entry (plain, or masked with a show button) or a Text box. */
  datatype Widget = EntryBox | TextBox

  /** The widget `create_row` builds for a kind: an Entry when the kind
      names "entry", else a masked Entry when it names "password", else a
      Text when it names "text"; otherwise none. */
  function WidgetOf(ftype: string): (w: Option<Widget>)
  {
    if Contains(ftype, "entry") then Some(EntryBox)
    else if Contains(ftype, "password") then Some(EntryBox)
    else if Contains(ftype, "text") then Some(TextBox)
    else None
  }

  lemma NotContains(s: string, sub: string, c: char)
    requires c in sub && c !in s
    ensures !Contains(s, sub)
  {
    var j :| 0 <= j < |sub| && sub[j] == c;
    forall i | 0 <= i <= |s| - |sub|
      ensures !OccursAt(s, sub, i)
    {
      assert s[i..i + |sub|][j] == s[i + j];
    }
  }

  /** Notes are a Text box; the OFFLINE code, although its kind starts with
      "text", gets a masked Entry, because "password" is tested first. */
  lemma WidgetKinds()
    ensures WidgetOf("text_notes_60") == Some(TextBox)
    ensures WidgetOf("text_password") == Some(EntryBox)
  {
    NotContains("text_notes_60", "entry", 'y');
    NotContains("text_notes_60", "password", 'p');
    NotContains("text_password", "entry", 'y');
    assert OccursAt("text_notes_60", "text", 0);
    assert OccursAt("text_password", "password", 5);
  }

  /** The inputs of a list of rows, row after row. */
  function Flat(rows: seq<Row>): (r: seq<FieldSpec>)
    ensures |rows| == 1 ==> r == rows[0]
  {
    if rows == [] then [] else Flat(rows[..|rows| - 1]) + rows[|rows| - 1]
  }

  /** `self.fields` once the inputs are created in order: each key names
      the spec of the last widget created for it. */
  function Fields(fs: seq<FieldSpec>): (r: map<string, FieldSpec>)
    ensures forall k :: k in r ==> r[k].key == k && WidgetOf(r[k].ftype).Some?
  {
    if fs == [] then map[]
    else
      var f := fs[|fs| - 1];
      var r0 := Fields(fs[..|fs| - 1]);
      if WidgetOf(f.ftype).Some? then r0[f.key := f] else r0
  }

  /** A key has a widget exactly when some input with a widget uses it. */
  lemma {:induction false} FieldsMembers(fs: seq<FieldSpec>, k: string)
    ensures k in Fields(fs) <==> exists i :: 0 <= i < |fs| && fs[i].key == k && WidgetOf(fs[i].ftype).Some?
  {
    if fs != [] {
      var init := fs[..|fs| - 1];
      FieldsMembers(init, k);
      if k in Fields(init) {
        var i :| 0 <= i < |init| && init[i].key == k && WidgetOf(init[i].ftype).Some?;
        assert fs[i] == init[i];
      }
      if exists i :: 0 <= i < |fs| && fs[i].key == k && WidgetOf(fs[i].ftype).Some? {
        var i :| 0 <= i < |fs| && fs[i].key == k && WidgetOf(fs[i].ftype).Some?;
        if i < |init| {
          assert init[i] == fs[i];
        }
      }
    }
  }

  /** The widgets of a list of rows. */
  function Widgets(rows: seq<Row>): map<string, FieldSpec> {
    Fields(Flat(rows))
  }

  // ---------------------------------------------------------------------
  // Layouts

  /** The rows `refresh_fields` draws: the type's layout, and for CUSTOM
      the notes row after the add-field button. */
  function FormLayout(t: RecordType): seq<Row> {
    Layout(t) + (if t == Custom then [[NotesField]] else [])
  }

  function CustomKey(i: nat): string { "custom_field_" + NatToString(i) }

  function CustomField(i: nat): FieldSpec {
    FieldSpec(CustomKey(i), "○ Поле " + NatToString(i), 0, "entry")
  }

  /** The custom inputs 1..n two per row, built from the back: an odd
      count ends in a single row. */
  function CustomRows(n: nat): (r: seq<Row>)
  {
    if n == 0 then []
    else if n % 2 == 1 then CustomRows(n - 1) + [[CustomField(n)]]
    else CustomRows(n - 2) + [[CustomField(n - 1), CustomField(n)]]
  }

  /** Every row holds two inputs except the last one of an odd count. */
  lemma {:induction false} CustomRowsShape(n: nat)
    ensures |CustomRows(n)| == (n + 1) / 2
    ensures forall j :: 0 <= j < |CustomRows(n)| - 1 ==> |CustomRows(n)[j]| == 2
    ensures CustomRows(n) != [] ==> |CustomRows(n)[|CustomRows(n)| - 1]| == (if n % 2 == 1 then 1 else 2)
  {
    if n > 0 {
      var m := if n % 2 == 1 then n - 1 else n - 2;
      var last: Row := if n % 2 == 1 then [CustomField(n)] else [CustomField(n - 1), CustomField(n)];
      var prev := CustomRows(m);
      var rs := CustomRows(n);
      assert rs == prev + [last];
      CustomRowsShape(m);
      HalfStep(n, m);
      forall j | 0 <= j < |rs| - 1
        ensures |rs[j]| == 2
      {
        assert rs[j] == prev[j];
      }
    }
  }

  lemma HalfStep(n: nat, m: nat)
    requires n > 0 && m == if n % 2 == 1 then n - 1 else n - 2
    ensures m % 2 == 0 && (n + 1) / 2 == (m + 1) / 2 + 1
  {
    var q := n / 2;
    assert n == 2 * q + n % 2;
  }

  /** Read row by row, the custom rows list custom_field_1 .. custom_field_n
      in order. */
  lemma {:induction false} CustomRowsInOrder(n: nat)
    ensures Flat(CustomRows(n)) == CustomFields(n)
  {
    if n == 0 {
    } else if n % 2 == 1 {
      CustomRowsInOrder(n - 1);
      var rs := CustomRows(n);
      assert rs[..|rs| - 1] == CustomRows(n - 1);
    } else {
      CustomRowsInOrder(n - 2);
      var rs := CustomRows(n);
      assert rs[..|rs| - 1] == CustomRows(n - 2);
      assert CustomFields(n) == CustomFields(n - 2) + [CustomField(n - 1), CustomField(n)];
    }
  }

  /** custom_field_1 .. custom_field_n. */
  function CustomFields(n: nat): (r: seq<FieldSpec>)
    ensures |r| == n && forall i :: 0 <= i < n ==> r[i] == CustomField(i + 1)
  {
    if n == 0 then [] else CustomFields(n - 1) + [CustomField(n)]
  }

  /** The first two rows `add_custom_field` rebuilds; the labels differ
      from the CUSTOM layout, the keys and kinds do not. */
  const CustomBase: seq<Row> := [
    [FieldSpec("name", "★ Название", 2, "entry_name_50")],
    [FieldSpec("username", "★ Поле 1", 2, "entry"), FieldSpec("password", "★ Поле 2", 2, "password_row")]]

  /** The rows after `add_custom_field` with n custom inputs. */
  function CustomLayout(n: nat): seq<Row> {
    CustomBase + CustomRows(n) + [[NotesField]]
  }

  /** `for i in range(1, n + 1)`: pair the custom inputs into rows. */
  method PairUp(n: nat) returns (rows: seq<Row>)
    ensures rows == CustomRows(n)
  {
    rows := [];
    var temp: Row := [];
    var i := 1;
    ghost var pairs := 0;
    while i <= n
      invariant 1 <= i <= n + 1
      invariant i - 1 == 2 * pairs + |temp| && |temp| <= 1
      invariant rows == CustomRows(2 * pairs)
      invariant |temp| == 1 ==> temp == [CustomField(i - 1)]
    {
      if temp == [] {
        temp := [CustomField(i)];
      } else {
        CustomRowsPair(pairs);
        assert i == 2 * pairs + 2;
        assert temp + [CustomField(i)] == [CustomField(2 * pairs + 1), CustomField(2 * pairs + 2)];
        rows := rows + [temp + [CustomField(i)]];
        temp := [];
        pairs := pairs + 1;
      }
      i := i + 1;
    }
    if temp != [] {
      CustomRowsSingle(pairs);
      assert temp == [CustomField(2 * pairs + 1)];
      rows := rows + [temp];
    }
  }

  lemma CustomRowsPair(p: nat)
    ensures CustomRows(2 * p + 2) == CustomRows(2 * p) + [[CustomField(2 * p + 1), CustomField(2 * p + 2)]]
  {
    assert (2 * p + 2) % 2 == 0;
  }

  lemma CustomRowsSingle(p: nat)
    ensures CustomRows(2 * p + 1) == CustomRows(2 * p) + [[CustomField(2 * p + 1)]]
  {
    assert (2 * p + 1) % 2 == 1;
  }

  // ---------------------------------------------------------------------
  // What the widgets hold

  /** What `get` returns: a Text box adds a final newline. */
  function ReadOne(f: FieldSpec, v: string): (r: string)
    ensures Strip(r) == Strip(v)
  {
    StripNewline(v);
    if WidgetOf(f.ftype) == Some(TextBox) then v + "\n" else v
  }

  /** `s + "\n"` strips like `s`. */
  lemma StripNewline(s: string)
    ensures Strip(s + "\n") == Strip(s)
  {
    TrimStartAppend(s, '\n');
    var t := TrimStart(s);
    if t != [] {
      TrimEndAppend(t, '\n');
    }
  }

  lemma TrimEndAppend(t: string, c: char)
    requires IsSpace(c)
    ensures TrimEnd(t + [c]) == TrimEnd(t)
  {
    assert (t + [c])[..|t|] == t;
  }

  lemma {:induction false} TrimStartAppend(s: string, c: char)
    requires IsSpace(c)
    ensures TrimStart(s + [c]) == if TrimStart(s) == [] then [] else TrimStart(s) + [c]
  {
    if s != [] {
      assert (s + [c])[1..] == s[1..] + [c];
      if IsSpace(s[0]) {
        TrimStartAppend(s[1..], c);
      }
    }
  }

  /** A widget's contents respect its validator: a Text box holds anything,
      an Entry only what its kind accepts. */
  predicate Holds(f: FieldSpec, v: string) {
    WidgetOf(f.ftype) == Some(TextBox) || Accepts(f.ftype, v)
  }

  /** `insert` into an empty widget: an Entry refuses a text its validator
      rejects and stays empty. */
  function Put(f: FieldSpec, v: string): (r: string)
    ensures Holds(f, r)
    ensures Holds(f, v) ==> r == v
  {
    AcceptsEmpty(f.ftype);
    if Holds(f, v) then v else ""
  }

  /** Every widget empty. */
  function Blank(w: map<string, FieldSpec>): (r: map<string, string>)
    ensures r.Keys == w.Keys && forall k :: k in r ==> r[k] == "" && Holds(w[k], r[k])
  {
    AcceptsEmptyAll(w);
    map k | k in w :: ""
  }

  lemma AcceptsEmptyAll(w: map<string, FieldSpec>)
    ensures forall k :: k in w ==> Accepts(w[k].ftype, "")
  {
    forall k | k in w
      ensures Accepts(w[k].ftype, "")
    {
      AcceptsEmpty(w[k].ftype);
    }
  }

  /** `current_vals` of `add_custom_field`: what each widget's `get` returns. */
  function Current(w: map<string, FieldSpec>, text: map<string, string>): (r: map<string, string>)
    requires text.Keys <= w.Keys
    ensures r.Keys == text.Keys
  {
    map k | k in text :: ReadOne(w[k], text[k])
  }

  /** The new widgets after a redraw, each refilled from `vals` when its key
      was there: Entries by `insert(0, val)`, Text boxes by
      `insert("1.0", val.strip())`. */
  function Restored(w: map<string, FieldSpec>, vals: map<string, string>): (r: map<string, string>)
    ensures r.Keys == w.Keys && forall k :: k in r ==> Holds(w[k], r[k])
  {
    AcceptsEmptyAll(w);
    map k | k in w :: if k in vals then Put(w[k], if WidgetOf(w[k].ftype) == Some(TextBox) then Strip(vals[k]) else vals[k]) else ""
  }

  /** The `data` dictionary of `save`: every widget's stripped contents. */
  function Data(w: map<string, FieldSpec>, text: map<string, string>): (r: FormData)
    requires text.Keys <= w.Keys
    ensures r.Keys == text.Keys
  {
    map k | k in text :: Strip(ReadOne(w[k], text[k]))
  }

  /** Redrawing loses nothing: every key on both forms whose kind did not
      change saves the same text afterwards. */
  lemma RestoreKeepsData(w0: map<string, FieldSpec>, text0: map<string, string>, w1: map<string, FieldSpec>, k: string)
    requires text0.Keys == w0.Keys && forall j :: j in text0 ==> Holds(w0[j], text0[j])
    requires k in w0 && k in w1 && w0[k].ftype == w1[k].ftype
    ensures Data(w1, Restored(w1, Current(w0, text0)))[k] == Data(w0, text0)[k]
  {
    var v := text0[k];
    if WidgetOf(w0[k].ftype) == Some(TextBox) {
      StripNewline(v);
      StripIdempotent(v);
    }
  }

  /** The notes field is the only Text box of every form. */
  function ExpectedWidget(k: string): Widget {
    if k == "notes" then TextBox else EntryBox
  }

  predicate KindOk(f: FieldSpec) {
    WidgetOf(f.ftype) == Some(ExpectedWidget(f.key))
  }

  predicate KindsAgree(w: map<string, FieldSpec>) {
    forall k :: k in w ==> WidgetOf(w[k].ftype) == Some(ExpectedWidget(k))
  }

  lemma {:induction false} FieldsKinds(fs: seq<FieldSpec>)
    requires forall i :: 0 <= i < |fs| ==> KindOk(fs[i])
    ensures KindsAgree(Fields(fs))
  {
    if fs != [] {
      FieldsKinds(fs[..|fs| - 1]);
    }
  }

  lemma {:induction false} FlatAppend(a: seq<Row>, b: seq<Row>)
    ensures Flat(a + b) == Flat(a) + Flat(b)
  {
    if b == [] {
      assert a + b == a;
    } else {
      var init := b[..|b| - 1];
      var ab := a + b;
      assert ab[..|ab| - 1] == a + init;
      assert ab[|ab| - 1] == b[|b| - 1];
      FlatAppend(a, init);
      assert Flat(ab) == Flat(a + init) + b[|b| - 1];
      assert Flat(b) == Flat(init) + b[|b| - 1];
      assert Flat(a) + Flat(init) + b[|b| - 1] == Flat(a) + (Flat(init) + b[|b| - 1]);
    }
  }

  lemma EntryKinds()
    ensures WidgetOf("entry") == Some(EntryBox)
    ensures WidgetOf("entry_name_50") == Some(EntryBox)
    ensures WidgetOf("password_row") == Some(EntryBox)
  {
    assert OccursAt("entry", "entry", 0);
    assert OccursAt("entry_name_50", "entry", 0);
    assert OccursAt("password_row", "password", 0);
  }

  /** How `add_custom_field` draws n custom inputs: every one an Entry, the
      notes a Text box. */
  lemma CustomLayoutKinds(n: nat)
    ensures KindsAgree(Widgets(CustomLayout(n)))
  {
    var fs := Flat(CustomLayout(n));
    var head := CustomBase[0] + CustomBase[1];
    CustomLayoutFlat(n);
    EntryKinds();
    WidgetKinds();
    forall i | 0 <= i < |fs|
      ensures KindOk(fs[i])
    {
      if i < |head| {
        assert fs[i] == head[i];
      } else if i < |head| + n {
        assert fs[i] == CustomFields(n)[i - |head|];
        CustomFieldKind(i - |head| + 1);
      } else {
        assert fs[i] == NotesField;
      }
    }
    FieldsKinds(fs);
  }

  /** The inputs `add_custom_field` draws, in order. */
  lemma CustomLayoutFlat(n: nat)
    ensures Flat(CustomLayout(n)) == CustomBase[0] + CustomBase[1] + CustomFields(n) + [NotesField]
  {
    FlatAppend(CustomBase + CustomRows(n), [[NotesField]]);
    FlatAppend(CustomBase, CustomRows(n));
    CustomRowsInOrder(n);
    var base := CustomBase;
    assert base[..1] == [base[0]];
    assert Flat(base) == base[0] + base[1];
  }

  /** A custom input is an Entry. */
  lemma CustomFieldKind(i: nat)
    ensures KindOk(CustomField(i))
  {
    EntryKinds();
    assert |CustomKey(i)| > 5;
  }

  /** The kinds the layouts use: an "entry…" kind, a "password…" kind
      without "entry" in it, the OFFLINE code, or the notes. */
  predicate UsualKind(f: FieldSpec) {
    f == NotesField || (f.key != "notes" && (StartsWith(f.ftype, "entry")
      || (StartsWith(f.ftype, "password") && 'y' !in f.ftype) || f.ftype == "text_password"))
  }

  /** An input of one of those kinds gets the widget its key expects. */
  lemma FieldKindOk(f: FieldSpec)
    requires UsualKind(f)
    ensures KindOk(f)
  {
    WidgetKinds();
    if StartsWith(f.ftype, "entry") {
      assert OccursAt(f.ftype, "entry", 0);
    } else if StartsWith(f.ftype, "password") && 'y' !in f.ftype {
      NotContains(f.ftype, "entry", 'y');
      assert OccursAt(f.ftype, "password", 0);
    }
  }

  predicate AllUsual(rows: seq<Row>) {
    forall i, j :: 0 <= i < |rows| && 0 <= j < |rows[i]| ==> UsualKind(rows[i][j])
  }

  /** Every input of the flattened rows is an input of some row. */
  lemma {:induction false} FlatUsual(rows: seq<Row>)
    requires AllUsual(rows)
    ensures forall i :: 0 <= i < |Flat(rows)| ==> UsualKind(Flat(rows)[i])
  {
    if rows != [] {
      var init := rows[..|rows| - 1];
      assert forall i, j :: 0 <= i < |init| && 0 <= j < |init[i]| ==> init[i][j] == rows[i][j];
      FlatUsual(init);
      var last := rows[|rows| - 1];
      forall i | 0 <= i < |Flat(rows)|
        ensures UsualKind(Flat(rows)[i])
      {
        if i >= |Flat(init)| {
          assert Flat(rows)[i] == last[i - |Flat(init)|];
        } else {
          assert Flat(rows)[i] == Flat(init)[i];
        }
      }
    }
  }

  /** Every layout `refresh_fields` draws has Entries only, and the notes
      Text box. */
  lemma LayoutKinds(t: RecordType)
    ensures KindsAgree(Widgets(FormLayout(t)))
  {
    var rows := FormLayout(t);
    LayoutUsual(t);
    FlatUsual(rows);
    var fs := Flat(rows);
    forall i | 0 <= i < |fs|
      ensures KindOk(fs[i])
    {
      FieldKindOk(fs[i]);
    }
    FieldsKinds(fs);
  }

  lemma LayoutUsual(t: RecordType)
    ensures AllUsual(FormLayout(t))
  {
    match t {
      case Web => UsualWeb();
      case Offline => UsualOffline();
      case Social => UsualSocial();
      case Email => UsualEmail();
      case Bank => UsualBank();
      case Card => UsualCard();
      case Custom => UsualCustom();
    }
  }

  lemma UsualWeb()
    ensures AllUsual(FormLayout(Web))
  {
  }

  lemma UsualOffline()
    ensures AllUsual(FormLayout(Offline))
  {
  }

  lemma UsualSocial()
    ensures AllUsual(FormLayout(Social))
  {
  }

  lemma UsualEmail()
    ensures AllUsual(FormLayout(Email))
  {
  }

  lemma UsualBank()
    ensures AllUsual(FormLayout(Bank))
  {
  }

  lemma UsualCard()
    ensures AllUsual(FormLayout(Card))
  {
  }

  lemma UsualCustom()
    ensures AllUsual(FormLayout(Custom))
  {
  }

  /** An empty form redrawn is empty again. */
  lemma RestoreBlank(w0: map<string, FieldSpec>, text0: map<string, string>, w1: map<string, FieldSpec>)
    requires KindsAgree(w0) && KindsAgree(w1)
    requires text0.Keys <= w0.Keys && forall k :: k in text0 ==> text0[k] == ""
    ensures forall k :: k in Restored(w1, Current(w0, text0)) ==> Restored(w1, Current(w0, text0))[k] == ""
  {
    var r := Restored(w1, Current(w0, text0));
    forall k | k in r
      ensures r[k] == ""
    {
      RestoreBlankAt(w0, text0, w1, k);
    }
  }

  lemma RestoreBlankAt(w0: map<string, FieldSpec>, text0: map<string, string>, w1: map<string, FieldSpec>, k: string)
    requires k in w1 && WidgetOf(w1[k].ftype) == Some(ExpectedWidget(k))
    requires text0.Keys <= w0.Keys
    requires k in text0 ==> WidgetOf(w0[k].ftype) == Some(ExpectedWidget(k)) && text0[k] == ""
    ensures Restored(w1, Current(w0, text0))[k] == ""
  {
    var vals := Current(w0, text0);
    var r := Restored(w1, vals);
    if k in vals {
      assert vals[k] == ReadOne(w0[k], text0[k]);
      BlankRead(w0[k], w1[k]);
      assert r[k] == Put(w1[k], if WidgetOf(w1[k].ftype) == Some(TextBox) then Strip(vals[k]) else vals[k]);
    } else {
      assert r[k] == "";
    }
  }

  /** An empty widget read back and put into a widget of the same kind
      gives an empty widget. */
  lemma BlankRead(f0: FieldSpec, f1: FieldSpec)
    requires WidgetOf(f0.ftype) == WidgetOf(f1.ftype)
    ensures var v := ReadOne(f0, "");
      Put(f1, if WidgetOf(f1.ftype) == Some(TextBox) then Strip(v) else v) == ""
  {
    StripBlank();
    PutEmpty(f1);
  }

  lemma PutEmpty(f: FieldSpec)
    ensures Put(f, "") == "" && Strip("") == ""
  {
  }

  // ---------------------------------------------------------------------
  // Loading a record

  /** `d.get(key)` as `fill_data` shows it: sensitive columns pass through
      `decrypt_password` (which turns a non-text cell into the sentinel),
      the rest through `str`. */
  function Shown(c: Scheme, key: Key, k: string, v: Database.Value): string {
    if k in SensitiveFields then
      (if v.Text? then DecryptPassword(c, key, v.s) else DecryptFailure)
    else match v
      case Text(s) => s
      case Int(n) => IntToString(n)
      case Null => "None"
  }

  /** The first step of `fill_data`: the combobox shows the record's type,
      and the favourite box is ticked when the record is a favourite. */
  ghost predicate TypeAndFlagTaken(d: Database.Record, wasFavourite: bool, kind: RecordType, favourite: bool) {
    kind == TypeOfCode(TypeCodeOf(d)) && favourite == (wasFavourite || Database.Truthy(Database.Get(d, "is_favorite")))
  }

  /** The widgets `fill_data` as written draws: the type's layout, and for
      CUSTOM always two custom inputs. */
  ghost predicate DrawnAsWritten(kind: RecordType, customCount: nat, rows: seq<Row>) {
    rows == FormLayout(kind) && (kind == Custom ==> customCount == 2)
  }

  /** Every widget of `w` shows what `fill_data` loads into it from `d`. */
  ghost predicate ShowsLoaded(text: map<string, string>, w: map<string, FieldSpec>, d: Database.Record, c: Scheme, key: Key) {
    forall k :: k in text && k in w ==> text[k] == LoadedOne(w[k], "", d, c, key)
  }

  /** The widgets the corrected `fill_data` draws for `d`: the type's
      layout, and for CUSTOM custom inputs up to the last filled one. */
  ghost predicate DrawnFor(d: Database.Record, kind: RecordType, customCount: nat, rows: seq<Row>) {
    && (kind != Custom ==> rows == FormLayout(kind))
    && (kind == Custom ==> customCount == ShownCustomCount(d))
    && (kind == Custom ==> rows == if ShownCustomCount(d) > 2 then CustomLayout(ShownCustomCount(d)) else FormLayout(kind))
  }

  /** One widget after the `fill_data` loop: a falsy cell leaves it as it
      was; otherwise it is cleared and the shown text inserted. */
  function LoadedOne(f: FieldSpec, before: string, d: Database.Record, c: Scheme, key: Key): (r: string)
  {
    var v := Database.Get(d, f.key);
    if Database.Truthy(v) then Put(f, Shown(c, key, f.key, v)) else before
  }

  /** Loading a value keeps the widget within its validator. */
  lemma LoadedHolds(f: FieldSpec, before: string, d: Database.Record, c: Scheme, key: Key)
    requires Holds(f, before)
    ensures Holds(f, LoadedOne(f, before, d, c, key))
  {
  }

  /** `for key, widget in self.fields.items()`: each key is handled on its
      own, so visiting them in any order gives the same form. */
  method LoadLoop(w: map<string, FieldSpec>, text0: map<string, string>, order: seq<string>,
                  d: Database.Record, c: Scheme, key: Key)
    returns (text: map<string, string>)
    requires text0.Keys == w.Keys && forall k :: k in w ==> k in order
    ensures text.Keys == w.Keys
    ensures forall k :: k in text ==> text[k] == LoadedOne(w[k], text0[k], d, c, key)
  {
    text := text0;
    var i := 0;
    ghost var visited: set<string> := {};
    while i < |order|
      invariant 0 <= i <= |order|
      invariant text.Keys == w.Keys
      invariant forall j :: 0 <= j < i ==> order[j] in visited
      invariant forall k :: k in text ==> text[k] == if k in visited then LoadedOne(w[k], text0[k], d, c, key) else text0[k]
    {
      var k := order[i];
      if k in text {
        text := text[k := LoadedOne(w[k], text0[k], d, c, key)];
      }
      visited := visited + {k};
      i := i + 1;
    }
    forall k | k in text
      ensures k in visited
    {
      var j :| 0 <= j < |order| && order[j] == k;
    }
  }

  function KeysOf(fs: seq<FieldSpec>): (r: seq<string>)
    ensures |r| == |fs| && forall i :: 0 <= i < |fs| ==> r[i] == fs[i].key
  {
    seq(|fs|, i requires 0 <= i < |fs| => fs[i].key)
  }

  /** The `type` cell as `type_map_rev` sees it. */
  function TypeCodeOf(d: Database.Record): string {
    if Database.Get(d, "type").Text? then Database.Get(d, "type").s else ""
  }

  /** The loop of `fill_data`: the highest i in 1..n whose
      `custom_field_i` cell is truthy, or 0. */
  function LastFilled(d: Database.Record, n: nat): nat {
    if n == 0 then 0
    else if Database.Truthy(Database.Get(d, CustomKey(n))) then n
    else LastFilled(d, n - 1)
  }

  /** `LastFilled` is the last filled index: filled itself, nothing filled
      after it. */
  lemma {:induction false} LastFilledSpec(d: Database.Record, n: nat)
    ensures LastFilled(d, n) <= n
    ensures LastFilled(d, n) > 0 ==> Database.Truthy(Database.Get(d, CustomKey(LastFilled(d, n))))
    ensures forall j :: LastFilled(d, n) < j <= n ==> !Database.Truthy(Database.Get(d, CustomKey(j)))
  {
    if n > 0 && !Database.Truthy(Database.Get(d, CustomKey(n))) {
      LastFilledSpec(d, n - 1);
    }
  }

  method MaxCustomIndex(d: Database.Record) returns (m: nat)
    ensures m == LastFilled(d, 10)
  {
    m := 0;
    var i := 1;
    while i <= 10
      invariant 1 <= i <= 11
      invariant m == LastFilled(d, i - 1)
    {
      if Database.Truthy(Database.Get(d, CustomKey(i))) {
        m := i;
      }
      i := i + 1;
    }
  }

  /** How many custom inputs the corrected `fill_data` draws. */
  function ShownCustomCount(d: Database.Record): (n: nat)
    ensures 2 <= n <= 10
  {
    LastFilledSpec(d, 10);
    if LastFilled(d, 10) > 2 then LastFilled(d, 10) else 2
  }

  // ---------------------------------------------------------------------
  // Saving

  datatype SaveOutcome =
    | Rejected(error: SaveError)
    | Inserted(cols: seq<string>, vals: seq<Database.Value>, id: Option<nat>)
    | Updated(cols: seq<string>, vals: seq<Database.Value>, ok: bool)

  /** The time-stamp column `save` sets: `created_at` when adding,
      `updated_at` when editing. */
  function StampColumn(adding: bool): string {
    if adding then "created_at" else "updated_at"
  }

  /** The columns `save` may list, in its order. */
  function SaveOrder(adding: bool): seq<string> {
    AllColumns + [StampColumn(adding)]
  }

  /** The values `save` binds: the form data with the sensitive fields
      sealed, the type code, the favourite flag and the time stamp. */
  function SaveRow(d: FormData, t: RecordType, favourite: bool, adding: bool,
                   c: Scheme, key: Key, nonce: string -> nat, now: string): map<string, Database.Value>
  {
    BoundData(Sealed(c, key, nonce, d), t, favourite, StampColumn(adding), now)
  }

  /** A column list and the values bound to it. */
  datatype Statement = Statement(cols: seq<string>, vals: seq<Database.Value>)

  /** The statement for `row`: the columns of `order` that `row` has, in
      that order, each with its value. */
  function StatementOf(row: map<string, Database.Value>, order: seq<string>): (st: Statement)
    ensures |st.vals| == |st.cols|
    ensures forall c :: c in st.cols <==> c in order && c in row
    ensures forall i :: 0 <= i < |st.cols| ==> st.cols[i] in row && st.vals[i] == row[st.cols[i]]
  {
    var cols := Present(order, row.Keys);
    Statement(cols, seq(|cols|, i requires 0 <= i < |cols| => row[cols[i]]))
  }

  /** What the loop of `save` collects is the statement. */
  lemma Collected(order: seq<string>, row: map<string, Database.Value>, cols: seq<string>, vals: seq<Database.Value>)
    requires cols == Present(order, row.Keys) && |vals| == |cols|
    requires forall i :: 0 <= i < |cols| ==> cols[i] in row && vals[i] == row[cols[i]]
    ensures Statement(cols, vals) == StatementOf(row, order)
  {
  }

  /** What `fill_data` shows for a column `save` wrote from a filled field
      is what was typed: sealed fields decrypt back, the others are stored
      verbatim. */
  lemma SavedFieldReadsBack(d: FormData, t: RecordType, favourite: bool, adding: bool,
                            c: Scheme, key: Key, nonce: string -> nat, now: string, k: string)
    requires Sound(c) && k in d && d[k] != ""
    requires k != "type" && k != "is_favorite" && k != "created_at" && k != "updated_at"
    ensures k in SaveRow(d, t, favourite, adding, c, key, nonce, now)
    ensures Shown(c, key, k, SaveRow(d, t, favourite, adding, c, key, nonce, now)[k]) == d[k]
  {
    SealedRecoverable(c, key, nonce, d, k);
  }

  /** The statement keeps the canonical column order and always sets the
      type, the favourite flag and the stamp. */
  lemma StatementShape(d: FormData, t: RecordType, favourite: bool, adding: bool,
                       c: Scheme, key: Key, nonce: string -> nat, now: string)
    ensures var st := StatementOf(SaveRow(d, t, favourite, adding, c, key, nonce, now), SaveOrder(adding));
      && Subsequence(st.cols, SaveOrder(adding))
      && "type" in st.cols && "is_favorite" in st.cols && StampColumn(adding) in st.cols
  {
    var row := SaveRow(d, t, favourite, adding, c, key, nonce, now);
    PresentInOrder(SaveOrder(adding), row.Keys);
    SaveOrderHas(adding);
  }

  lemma SaveOrderHas(adding: bool)
    ensures "type" in SaveOrder(adding) && "is_favorite" in SaveOrder(adding)
    ensures StampColumn(adding) in SaveOrder(adding)
  {
    assert SaveOrder(adding)[3] == "type";
    assert SaveOrder(adding)[10] == "is_favorite";
    assert SaveOrder(adding)[|AllColumns|] == StampColumn(adding);
  }

  // ---------------------------------------------------------------------
  // The window

  /** Every drawn widget holds what its validator admits, and each has the
      widget kind its key expects. */
  ghost predicate Consistent(rows: seq<Row>, text: map<string, string>) {
    && text.Keys == Widgets(rows).Keys
    && (forall k :: k in text ==> Holds(Widgets(rows)[k], text[k]))
    && KindsAgree(Widgets(rows))
  }

  /** A layout whose widgets agree with their kinds, with every widget
      empty, is a consistent form. */
  lemma BlankConsistent(rows: seq<Row>)
    requires KindsAgree(Widgets(rows))
    ensures Consistent(rows, Blank(Widgets(rows)))
  {
  }

  /** `add_custom_field` with n inputs leaves a consistent form, and an
      empty form stays empty. */
  lemma Redrawn(rows0: seq<Row>, text0: map<string, string>, n: nat, rows: seq<Row>, text: map<string, string>)
    requires Consistent(rows0, text0)
    requires rows == CustomLayout(n) && text == Restored(Widgets(rows), Current(Widgets(rows0), text0))
    ensures Consistent(rows, text)
    ensures (forall k :: k in text0 ==> text0[k] == "") ==> forall k :: k in text ==> text[k] == ""
  {
    CustomLayoutKinds(n);
    if forall k :: k in text0 ==> text0[k] == "" {
      RestoreBlank(Widgets(rows0), text0, Widgets(rows));
    }
  }

  class Form {
    /** "add" or "edit", and the id being edited. */
    const adding: bool
    const recordId: nat
    /** The type chosen in the combobox. */
    var kind: RecordType
    /** `custom_fields_count`. */
    var customCount: nat
    var favourite: bool
    var rows: seq<Row>
    /** What each widget holds, without the final newline a Text box adds. */
    var text: map<string, string>

    ghost predicate Valid()
      reads this
    {
      Consistent(rows, text)
    }

    /** The window as `__init__` leaves it before `fill_data`: the first
        type selected, and in add mode its fields drawn. */
    constructor (adding0: bool, recordId0: nat)
      ensures Valid() && adding == adding0 && recordId == recordId0
      ensures kind == Web && !favourite
      ensures adding ==> rows == FormLayout(Web) && text == Blank(Widgets(rows))
      ensures !adding ==> rows == [] && text == map[]
    {
      adding := adding0;
      recordId := recordId0;
      kind := Web;
      customCount := 0;
      favourite := false;
      rows := [];
      text := map[];
      new;
      if adding {
        RefreshFields();
      }
    }

    /** `refresh_fields`: every widget is rebuilt empty for the current
        type; CUSTOM starts again at two custom inputs. */
    method RefreshFields()
      modifies this`rows, this`text, this`customCount
      ensures Valid()
      ensures rows == FormLayout(kind) && text == Blank(Widgets(rows))
      ensures customCount == if kind == Custom then 2 else old(customCount)
    {
      var layout := FormLayout(kind);
      LayoutKinds(kind);
      BlankConsistent(layout);
      rows, text := layout, Blank(Widgets(layout));
      if kind == Custom {
        customCount := 2;
      }
    }

    /** Choosing a type in the combobox (add mode only). */
    method SelectType(shown: string)
      modifies this`kind, this`rows, this`text, this`customCount
      ensures Valid()
      ensures kind == TypeOfDisplay(shown) && rows == FormLayout(kind) && text == Blank(Widgets(rows))
      ensures customCount == if kind == Custom then 2 else old(customCount)
    {
      kind := TypeOfDisplay(shown);
      RefreshFields();
    }

    /** A keystroke or paste that would turn the widget's contents into
        `p`: an Entry takes it only when its validator accepts it; a Text
        box takes it, cut back to 60 characters for the notes. */
    method Edit(k: string, p: string) returns (taken: bool)
      requires Valid() && k in text
      modifies this`text
      ensures Valid()
      ensures taken <==> Holds(Widgets(rows)[k], p)
      ensures taken && WidgetOf(Widgets(rows)[k].ftype) == Some(TextBox) ==>
        text == old(text)[k := if Contains(Widgets(rows)[k].ftype, "60") && |p| > 60 then p[..60] else p]
      ensures taken && WidgetOf(Widgets(rows)[k].ftype) != Some(TextBox) ==> text == old(text)[k := p]
      ensures !taken ==> text == old(text)
    {
      var f := Widgets(rows)[k];
      taken := Holds(f, p);
      if taken {
        if WidgetOf(f.ftype) == Some(TextBox) {
          text := text[k := if Contains(f.ftype, "60") && |p| > 60 then p[..60] else p];
        } else {
          text := text[k := p];
        }
      }
    }

    /** `add_custom_field`: nothing at ten fields; otherwise one more custom
        input, the rows rebuilt and every surviving widget refilled. */
    method AddCustomField()
      requires Valid()
      modifies this`customCount, this`rows, this`text
      ensures Valid()
      ensures old(customCount) >= 10 ==> customCount == old(customCount) && rows == old(rows) && text == old(text)
      ensures old(customCount) < 10 ==>
        (customCount == old(customCount) + 1 && rows == CustomLayout(customCount)
         && text == Restored(Widgets(rows), Current(old(Widgets(rows)), old(text))))
      ensures (forall k :: k in old(text) ==> old(text)[k] == "") ==> forall k :: k in text ==> text[k] == ""
    {
      if customCount >= 10 {
        return;
      }
      ghost var rows0, text0 := rows, text;
      Regrow();
      Redrawn(rows0, text0, customCount, rows, text);
    }

    /** The redraw of `add_custom_field` below the cap: the custom inputs
        paired into rows again, and the surviving values put back. */
    method Regrow()
      requires text.Keys <= Widgets(rows).Keys
      modifies this`customCount, this`rows, this`text
      ensures customCount == old(customCount) + 1 && rows == CustomLayout(customCount)
      ensures text == Restored(Widgets(rows), Current(old(Widgets(rows)), old(text)))
    {
      var current := Current(Widgets(rows), text);
      customCount := customCount + 1;
      var custom := PairUp(customCount);
      rows := CustomBase + custom + [[NotesField]];
      text := Restored(Widgets(rows), current);
    }

    /** The start of `fill_data`: the record's type selected and its
        favourite flag copied. */
    method TakeTypeAndFlag(d: Database.Record)
      modifies this`kind, this`favourite
      ensures TypeAndFlagTaken(d, old(favourite), kind, favourite)
    {
      kind := TypeOfCode(TypeCodeOf(d));
      if Database.Truthy(Database.Get(d, "is_favorite")) {
        favourite := true;
      }
    }

    /** `fill_data` as written: `refresh_fields` resets the count to two
        before the count is tested, so the loop that should add custom
        inputs never runs and a CUSTOM record always shows two of them. */
    method FillDataAsWritten(d: Database.Record, c: Scheme, key: Key)
      requires Valid()
      modifies this`kind, this`favourite, this`customCount, this`rows, this`text
      ensures Valid()
      ensures TypeAndFlagTaken(d, old(favourite), kind, favourite)
      ensures DrawnAsWritten(kind, customCount, rows)
      ensures ShowsLoaded(text, Widgets(rows), d, c, key)
    {
      TakeTypeAndFlag(d);
      DrawAsWritten(d);
      LoadValues(d, c, key);
    }

    /** The drawing step of `fill_data` as written. */
    method DrawAsWritten(d: Database.Record)
      modifies this`customCount, this`rows, this`text
      ensures Valid() && forall k :: k in text ==> text[k] == ""
      ensures DrawnAsWritten(kind, customCount, rows)
    {
      if kind == Custom {
        var maxIdx := MaxCustomIndex(d);
        customCount := if maxIdx > 2 then maxIdx else 2;
      }
      RefreshFields();
      if kind == Custom && customCount > 2 {
        assert false;
      }
    }

    /** `fill_data` with the count kept across `refresh_fields`: a CUSTOM
        record shows custom inputs up to its last filled one. */
    method FillData(d: Database.Record, c: Scheme, key: Key)
      requires Valid()
      modifies this`kind, this`favourite, this`customCount, this`rows, this`text
      ensures Valid()
      ensures TypeAndFlagTaken(d, old(favourite), kind, favourite)
      ensures DrawnFor(d, kind, customCount, rows)
      ensures ShowsLoaded(text, Widgets(rows), d, c, key)
    {
      TakeTypeAndFlag(d);
      Draw(d);
      LoadValues(d, c, key);
    }

    /** The drawing step of the corrected `fill_data`. */
    method Draw(d: Database.Record)
      modifies this`customCount, this`rows, this`text
      ensures Valid() && forall k :: k in text ==> text[k] == ""
      ensures DrawnFor(d, kind, customCount, rows)
    {
      if kind == Custom {
        var maxIdx := MaxCustomIndex(d);
        var needed := if maxIdx > 2 then maxIdx else 2;
        LastFilledSpec(d, 10);
        RefreshFields();
        GrowCustom(needed);
      } else {
        RefreshFields();
      }
    }

    /** The `add_custom_field` loop of the corrected `fill_data`, on an
        empty CUSTOM form fresh from `refresh_fields`. */
    method GrowCustom(needed: nat)
      requires Valid() && kind == Custom && customCount == 2 && rows == FormLayout(kind)
      requires needed <= 10
      requires forall k :: k in text ==> text[k] == ""
      modifies this`customCount, this`rows, this`text
      ensures Valid()
      ensures customCount == if needed > 2 then needed else 2
      ensures rows == if needed > 2 then CustomLayout(needed) else FormLayout(kind)
      ensures forall k :: k in text ==> text[k] == ""
    {
      while customCount < needed
        invariant Valid()
        invariant 2 <= customCount && (needed > 2 ==> customCount <= needed)
        invariant needed <= 2 ==> customCount == 2
        invariant customCount == 2 ==> rows == FormLayout(kind)
        invariant customCount > 2 ==> rows == CustomLayout(customCount)
        invariant forall k :: k in text ==> text[k] == ""
        decreases needed - customCount
      {
        AddCustomField();
      }
    }

    /** The value loop of `fill_data`, on a form whose widgets are empty. */
    method LoadValues(d: Database.Record, c: Scheme, key: Key)
      requires Valid() && forall k :: k in text ==> text[k] == ""
      modifies this`text
      ensures Valid()
      ensures ShowsLoaded(text, Widgets(rows), d, c, key)
    {
      var w := Widgets(rows);
      var order := KeysOf(Flat(rows));
      forall k | k in w
        ensures k in order
      {
        FieldsMembers(Flat(rows), k);
      }
      text := LoadLoop(w, text, order, d, c, key);
      forall k | k in text
        ensures Holds(w[k], text[k])
      {
        LoadedHolds(w[k], "", d, c, key);
      }
    }

    /** The form's `data` dictionary. */
    function FormData(): FormData
      reads this
      requires Valid()
    {
      Data(Widgets(rows), text)
    }

    /** `save`: the validation chain, then the sealed fields, type,
        favourite flag and time stamp written in the canonical column
        order, by INSERT when adding and by UPDATE of `recordId` when
        editing.  `now` is the Python time stamp, `sqlNow` SQLite's
        CURRENT_TIMESTAMP for columns the statement leaves out. */
    method Save(db: Database.Db, ctx: SaveContext, c: Scheme, key: Key, nonce: string -> nat,
                now: string, sqlNow: string)
      returns (out: SaveOutcome)
      requires Valid() && db.Valid()
      modifies db`records, db`nextId
      ensures db.Valid()
      ensures old(FirstError(FormData(), kind, ctx)).Some? ==>
        out == Rejected(old(FirstError(FormData(), kind, ctx)).value)
        && db.records == old(db.records) && db.nextId == old(db.nextId)
      ensures old(FirstError(FormData(), kind, ctx)).None? ==>
        && (adding ==> out.Inserted?) && (!adding ==> out.Updated?)
        && Statement(out.cols, out.vals)
           == StatementOf(old(SaveRow(FormData(), kind, favourite, adding, c, key, nonce, now)), SaveOrder(adding))
        && Written(old(db.passwords), old(db.records), old(db.nextId), db.records, db.nextId, recordId, sqlNow, out)
    {
      var data := Data(Widgets(rows), text);
      var err := FirstError(data, kind, ctx);
      if err.Some? {
        return Rejected(err.value);
      }
      var sealed := SealFields(c, key, nonce, data);
      var stamp := StampColumn(adding);
      var bound := BoundData(sealed, kind, favourite, stamp, now);
      var order := SaveOrder(adding);
      var cols, vals := CollectColumns(order, bound);
      Collected(order, bound, cols, vals);
      out := Store(db, adding, recordId, cols, vals, sqlNow);
    }
  }

  /** What the statement did to the table: an INSERT adds the new row
      under the next id unless a column is unknown; an UPDATE rewrites the
      listed columns of `recordId` when that row exists. */
  ghost predicate Written(table: Option<seq<string>>, records0: map<nat, Database.Record>, next0: nat,
                          records: map<nat, Database.Record>, next: nat, recordId: nat, sqlNow: string,
                          out: SaveOutcome)
  {
    && (out.Inserted? ==>
          && |out.vals| == |out.cols|
          && (out.id.Some? <==> Known(table, out.cols))
          && (out.id.Some? ==>
                out.id.value == next0 && next == next0 + 1
                && records == records0[next0 := Database.NewRow(table.value, out.cols, out.vals, next0, sqlNow)])
          && (out.id.None? ==> records == records0 && next == next0))
    && (out.Updated? ==>
          && |out.vals| == |out.cols|
          && (out.ok <==> Known(table, out.cols))
          && (out.ok && recordId in records0 ==>
                records == records0[recordId := Database.UpdatedRow(records0[recordId], out.cols, out.vals)])
          && (!(out.ok && recordId in records0) ==> records == records0))
  }

  /** The table exists and has every listed column. */
  ghost predicate Known(table: Option<seq<string>>, cols: seq<string>) {
    table.Some? && forall col :: col in cols ==> col in SetOf(table.value)
  }

  /** The INSERT or UPDATE at the end of `save`. */
  method Store(db: Database.Db, adding: bool, recordId: nat, cols: seq<string>, vals: seq<Database.Value>,
               sqlNow: string)
    returns (out: SaveOutcome)
    requires db.Valid() && |cols| == |vals|
    modifies db`records, db`nextId
    ensures db.Valid()
    ensures (adding ==> out.Inserted?) && (!adding ==> out.Updated?)
    ensures out.cols == cols && out.vals == vals
    ensures Written(old(db.passwords), old(db.records), old(db.nextId), db.records, db.nextId, recordId, sqlNow, out)
  {
    if adding {
      ghost var table := db.passwords;
      var id := db.Insert(cols, vals, sqlNow);
      assert db.passwords == table;
      out := Inserted(cols, vals, id);
    } else {
      var ok := db.Update(recordId, cols, vals);
      out := Updated(cols, vals, ok);
    }
  }
}
