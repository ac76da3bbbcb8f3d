/** The record schema of src/windows/add_edit.py: record types, the form
    layout of each type, the per-keystroke validators, the save-time
    validation chain, the encryption of sensitive fields, and the column
    lists of the INSERT and UPDATE statements. */
module Records {
  import opened Wrappers
  import opened Text
  import opened Crypto
  import Database

  // ---------------------------------------------------------------------
  // Record types

  datatype RecordType = Web | Offline | Social | Email | Bank | Card | Custom

  /** The code stored in the `type` column. */
  function Code(t: RecordType): string {
    match t
    case Web => "WEB"
    case Offline => "OFFLINE"
    case Social => "SOCIAL"
    case Email => "EMAIL"
    case Bank => "BANK"
    case Card => "CARD"
    case Custom => "CUSTOM"
  }

  /** The combobox label of a type (`type_map` read backwards). */
  function Display(t: RecordType): string {
    match t
    case Web => "Сайт / Сервис"
    case Offline => "Оффлайн код"
    case Social => "Соц. сеть"
    case Email => "Почта"
    case Bank => "Банк / Счет"
    case Card => "Банковская карта"
    case Custom => "Другое"
  }

  /** `type_map.get(label, "WEB")`. */
  function TypeOfDisplay(shown: string): (t: RecordType)
    ensures shown == Display(t) || t == Web
  {
    if shown == "Оффлайн код" then Offline
    else if shown == "Соц. сеть" then Social
    else if shown == "Почта" then Email
    else if shown == "Банк / Счет" then Bank
    else if shown == "Банковская карта" then Card
    else if shown == "Другое" then Custom
    else Web
  }

  /** `type_map_rev.get(code, "Сайт / Сервис")`, as a type. */
  function TypeOfCode(code: string): (t: RecordType)
    ensures code == Code(t) || t == Web
  {
    if code == "OFFLINE" then Offline
    else if code == "SOCIAL" then Social
    else if code == "EMAIL" then Email
    else if code == "BANK" then Bank
    else if code == "CARD" then Card
    else if code == "CUSTOM" then Custom
    else Web
  }

  /** The two dictionaries are inverse: a type survives the trip through
      its label and through its code. */
  lemma TypeMapsRoundTrip(t: RecordType)
    ensures TypeOfDisplay(Display(t)) == t
    ensures TypeOfCode(Code(t)) == t
  {
  }

  // ---------------------------------------------------------------------
  // Layout

  /** One input of the form: column, label, importance (2 critical,
      1 important, 0 normal) and widget/validator kind. */
  datatype FieldSpec = FieldSpec(key: string, caption: string, req: nat, ftype: string)

  type Row = seq<FieldSpec>

  /** `layout_map[ptype]`. */
  function Layout(t: RecordType): seq<Row> {
    match t
    case Web => [
      [FieldSpec("name", "★ Название сайта", 2, "entry_name_50")],
      [FieldSpec("username", "★ Логин", 2, "entry_login_20"), FieldSpec("password", "★ Пароль", 2, "password_row")],
      [FieldSpec("url", "◆ Веб-адрес", 1, "entry"), FieldSpec("email", "◆ Email аккаунта", 1, "entry_email_20")],
      [FieldSpec("phone", "○ Телефон", 0, "entry_phone"), FieldSpec("category", "○ Категория", 0, "entry_category_10")],
      [FieldSpec("security_question", "○ Вопрос безопасности", 0, "entry_sec_30"), FieldSpec("security_answer", "○ Ответ", 0, "entry_sec_30")],
      [FieldSpec("recovery_email", "○ Резервный Email", 0, "entry_email_20"), FieldSpec("recovery_phone", "○ Рез. Телефон", 0, "entry_phone")],
      [NotesField]]
    case Offline => [
      [FieldSpec("name", "★ Название кода", 2, "entry_name_strict_20")],
      [FieldSpec("password", "★ Код / Текст", 2, "text_password")],
      [FieldSpec("tags", "○ Теги", 0, "entry_category_10"), FieldSpec("category", "○ Категория", 0, "entry_category_10")],
      [NotesField]]
    case Social => [
      [FieldSpec("name", "★ Соц. сеть", 2, "entry_name_50")],
      [FieldSpec("username", "★ Никнейм", 2, "entry_login_20"), FieldSpec("password", "★ Пароль", 2, "password_row")],
      [FieldSpec("email", "◆ Email аккаунта", 1, "entry_email_20"), FieldSpec("url", "◆ Ссылка на профиль", 1, "entry")],
      [FieldSpec("phone", "○ Телефон", 0, "entry_phone"), FieldSpec("full_name", "○ ФИО", 0, "entry")],
      [FieldSpec("recovery_email", "○ Email восст.", 0, "entry_email_20"), FieldSpec("recovery_phone", "○ Тел. восст.", 0, "entry_phone")],
      [NotesField]]
    case Email => [
      [FieldSpec("name", "★ Название почты", 2, "entry_name_50")],
      [FieldSpec("username", "★ Email адрес", 2, "entry_email_20"), FieldSpec("password", "★ Пароль", 2, "password_row")],
      [FieldSpec("phone", "◆ Телефон", 1, "entry_phone"), FieldSpec("full_name", "◆ ФИО владельца", 1, "entry")],
      [FieldSpec("date_of_birth", "○ Дата рождения", 0, "entry_date_full"), FieldSpec("recovery_email", "○ Рез. Email", 0, "entry_email_20")],
      [FieldSpec("security_question", "○ Вопрос безопасности", 0, "entry_sec_30"), FieldSpec("security_answer", "○ Ответ", 0, "entry_sec_30")],
      [NotesField]]
    case Bank => [
      [FieldSpec("name", "★ Название счета", 2, "entry_name_strict_20")],
      [FieldSpec("username", "★ Логин/Договор", 2, "entry_login_20"), FieldSpec("password", "★ Пароль", 2, "password_row")],
      [FieldSpec("account_number", "★ Номер счета (20)", 2, "entry_account"), FieldSpec("bank_name", "◆ Банк", 1, "entry")],
      [FieldSpec("card_number", "◆ Привязанная карта", 1, "entry_card"), FieldSpec("phone", "◆ Телефон", 1, "entry_phone")],
      [FieldSpec("bank_bik", "○ БИК (9)", 0, "entry_bik"), FieldSpec("currency", "○ Валюта", 0, "entry")],
      [FieldSpec("full_name", "○ ФИО владельца", 0, "entry"), FieldSpec("date_of_birth", "○ Дата рождения", 0, "entry_date_full")],
      [FieldSpec("identification_number", "○ ИНН/ID", 0, "entry"), FieldSpec("address", "○ Адрес", 0, "entry")],
      [NotesField]]
    case Card => [
      [FieldSpec("name", "★ Название карты", 2, "entry_name_strict_20")],
      [FieldSpec("card_number", "★ Номер карты", 2, "entry_card")],
      [FieldSpec("card_cvv", "★ CVV/CVC", 2, "entry_cvv"), FieldSpec("card_expire", "★ Срок (MM/YY)", 2, "entry_date")],
      [FieldSpec("card_holder", "◆ Владелец", 1, "entry"), FieldSpec("bank_name", "◆ Банк", 1, "entry")],
      [FieldSpec("card_pin", "○ PIN код", 0, "password_simple"), FieldSpec("card_type", "○ Тип", 0, "entry")],
      [FieldSpec("cardholder_phone", "○ Телефон", 0, "entry_phone"), FieldSpec("limit_amount", "○ Лимит", 0, "entry")],
      [FieldSpec("passport_number", "○ Паспорт", 0, "entry"), FieldSpec("currency", "○ Валюта", 0, "entry")],
      [NotesField]]
    case Custom => [
      [FieldSpec("name", "★ Название", 2, "entry_name_50")],
      [FieldSpec("username", "★ Поле 1 (Логин)", 2, "entry"), FieldSpec("password", "★ Поле 2 (Пароль)", 2, "password_row")],
      [FieldSpec("custom_field_1", "○ Поле 1", 0, "entry"), FieldSpec("custom_field_2", "○ Поле 2", 0, "entry")]]
  }

  const NotesField: FieldSpec := FieldSpec("notes", "○ Примечания", 0, "text_notes_60")

  /** The columns a list of rows shows, row by row. */
  function Keys(rows: seq<Row>): (r: seq<string>)
    ensures |rows| == 0 ==> r == []
  {
    if rows == [] then []
    else
      var last := rows[|rows| - 1];
      Keys(rows[..|rows| - 1]) + seq(|last|, j requires 0 <= j < |last| => last[j].key)
  }

  /** `all_possible_columns`, the canonical column order of both statements. */
  const AllColumns: seq<string> :=
    ["name", "username", "password", "type", "url", "email", "phone", "category", "tags", "notes",
     "is_favorite", "security_question", "security_answer", "recovery_email", "recovery_phone",
     "full_name", "date_of_birth", "address", "passport_number", "account_number", "bank_name",
     "card_number", "card_cvv", "card_expire", "card_holder", "card_pin", "card_type", "bank_bik",
     "account_type", "currency", "limit_amount", "cardholder_phone", "cardholder_full_name",
     "identification_number", "custom_field_1", "custom_field_2", "custom_field_3",
     "custom_field_4", "custom_field_5", "custom_field_6", "custom_field_7", "custom_field_8",
     "custom_field_9", "custom_field_10"]

  /** Every input of every layout is saved: its key is among the columns
      the statements may list. */
  lemma LayoutKeysSaved(t: RecordType)
    ensures forall i, j :: 0 <= i < |Layout(t)| && 0 <= j < |Layout(t)[i]| ==> Layout(t)[i][j].key in AllColumns
  {
  }

  /** Every column the statements may list exists once the migration of
      src/database.py has run, so a save never names an unknown column. */
  lemma ColumnsInSchema()
    ensures forall c :: c in AllColumns + ["created_at", "updated_at"] ==>
      c in Database.BaseColumns || c in Database.RequiredColumns
  {
  }

  // ---------------------------------------------------------------------
  // Per-keystroke validators (`validatecommand` with `%P`)

  /** `[a-zA-Zа-яА-Я0-9\-_]`: Ё and ё are outside both Cyrillic ranges. */
  predicate IsStrictChar(c: char) {
    IsAsciiLetter(c) || ('а' <= c <= 'я') || ('А' <= c <= 'Я') || IsDigit(c) || c == '-' || c == '_'
  }

  predicate AllStrict(s: string) { forall i :: 0 <= i < |s| ==> IsStrictChar(s[i]) }

  /** `re.match(r'^[...]+$', p)`: one or more allowed characters, and `$`
      also matches before a final newline. */
  predicate StrictMatch(p: string) {
    (|p| >= 1 && AllStrict(p)) || (|p| >= 2 && p[|p| - 1] == '\n' && AllStrict(p[..|p| - 1]))
  }

  /** `validate_strict_10` / `validate_strict_20`. */
  predicate StrictField(p: string, n: nat) {
    |p| <= n && (p == "" || StrictMatch(p))
  }

  /** `validate_card` and its siblings: digits or empty, bounded length. */
  predicate DigitsField(p: string, n: nat) {
    (IsDecimal(p) || p == "") && |p| <= n
  }

  const PhoneChars: string := "0123456789+()- "

  /** `validate_phone_input`. */
  predicate PhoneInput(p: string) {
    |Digits(p)| <= 11 && forall i :: 0 <= i < |p| ==> p[i] in PhoneChars
  }

  /** The validator `create_row` registers for a widget kind; kinds without
      one accept everything. */
  predicate Accepts(ftype: string, p: string) {
    if ftype == "entry_name_50" then |p| <= 50
    else if ftype == "entry_name_strict_20" then StrictField(p, 20)
    else if ftype == "entry_login_20" || ftype == "entry_email_20" then |p| <= 20
    else if ftype == "entry_category_10" then StrictField(p, 10)
    else if ftype == "entry_sec_30" then |p| <= 30
    else if ftype == "entry_numeric" then IsDecimal(p) || p == ""
    else if ftype == "entry_card" then DigitsField(p, 19)
    else if ftype == "entry_cvv" then DigitsField(p, 4)
    else if ftype == "entry_date" then |p| <= 5
    else if ftype == "entry_date_full" then |p| <= 10
    else if ftype == "entry_phone" then PhoneInput(p)
    else if ftype == "entry_account" then DigitsField(p, 20)
    else if ftype == "entry_bik" then DigitsField(p, 9)
    else true
  }

  /** The empty entry is always accepted, so every field can be cleared. */
  lemma AcceptsEmpty(ftype: string)
    ensures Accepts(ftype, "")
  {
  }

  /** Every validator is prefix-closed: whatever it accepts can be typed
      one character at a time, each intermediate text being accepted too. */
  lemma AcceptsPrefix(ftype: string, p: string, k: nat)
    requires Accepts(ftype, p) && k <= |p|
    ensures Accepts(ftype, p[..k])
  {
    var q := p[..k];
    if ftype == "entry_phone" {
      assert p == q + p[k..];
      DigitsAppend(q, p[k..]);
    } else if ftype == "entry_name_strict_20" {
      StrictPrefix(p, 20, k);
    } else if ftype == "entry_category_10" {
      StrictPrefix(p, 10, k);
    }
  }

  lemma StrictPrefix(p: string, n: nat, k: nat)
    requires StrictField(p, n) && k <= |p|
    ensures StrictField(p[..k], n)
  {
    var q := p[..k];
    if k == |p| {
      assert q == p;
    } else if q != "" {
      if AllStrict(p) {
        assert forall i :: 0 <= i < |q| ==> q[i] == p[i];
      } else {
        var s := p[..|p| - 1];
        assert AllStrict(s);
        assert forall i :: 0 <= i < |q| ==> q[i] == s[i];
      }
      assert AllStrict(q);
      assert StrictMatch(q);
    }
  }

  /** A strict field accepts exactly the texts of allowed characters up to
      its length, and one allowed text followed by a newline. */
  lemma StrictFieldNewline()
    ensures StrictField("ab\n", 10)
    ensures !StrictField("\n", 10)
    ensures !StrictField("Ёж", 10) && StrictField("еж", 10)
  {
    var ab := "ab\n";
    assert ab[..2] == "ab";
    assert AllStrict("ab");
    var nl := "\n";
    assert nl[0] == '\n' && !IsStrictChar('\n');
    var yo := "Ёж";
    assert yo[0] == 'Ё' && !IsStrictChar('Ё');
    assert yo[1] == 'ж';
    var ye := "еж";
    assert ye[0] == 'е' && ye[1] == 'ж';
    assert AllStrict(ye);
  }

  // ---------------------------------------------------------------------
  // The e-mail pattern `^[a-zA-Z0-9_.+-]+@[a-zA-Z0-9-]+\.[a-zA-Z0-9-.]+$`

  predicate IsLocalChar(c: char) { IsAsciiLetter(c) || IsDigit(c) || c == '_' || c == '.' || c == '+' || c == '-' }
  predicate IsLabelChar(c: char) { IsAsciiLetter(c) || IsDigit(c) || c == '-' }
  predicate IsTailChar(c: char) { IsLabelChar(c) || c == '.' }

  /** The match with '@' at `at` and the dot after the domain label at
      `dot`. */
  predicate EmailSplit(s: string, at: int, dot: int)
    requires 0 <= at < dot < |s|
  {
    && 0 < at && s[at] == '@' && (forall i :: 0 <= i < at ==> IsLocalChar(s[i]))
    && at + 1 < dot && (forall i :: at < i < dot ==> IsLabelChar(s[i]))
    && s[dot] == '.' && dot + 1 < |s| && (forall i :: dot < i < |s| ==> IsTailChar(s[i]))
  }

  /** What the regular expression matches, on text with no trailing
      newline: some placement of '@' and of the dot. */
  predicate MatchesEmailPattern(s: string) {
    exists at, dot | 0 <= at < dot < |s| :: EmailSplit(s, at, dot)
  }

  /** The same language, decided without search: '@' is the first '@', the
      dot is the first '.' after it. */
  predicate IsEmail(s: string) {
    var local := BeforeFirst(s, '@');
    var at := |local|;
    && 0 < at < |s|
    && var lbl := BeforeFirst(s[at + 1..], '.');
       var dot := at + 1 + |lbl|;
       dot < |s| && EmailSplit(s, at, dot)
  }

  /** `BeforeFirst` stops at the first occurrence. */
  lemma BeforeFirstAt(s: string, c: char, i: nat)
    requires i < |s| && s[i] == c && forall j :: 0 <= j < i ==> s[j] != c
    ensures BeforeFirst(s, c) == s[..i]
  {
  }

  /** The search-free decision agrees with the pattern in both directions. */
  lemma EmailDecision(s: string)
    ensures IsEmail(s) <==> MatchesEmailPattern(s)
  {
    if MatchesEmailPattern(s) {
      var at, dot :| 0 <= at < dot < |s| && EmailSplit(s, at, dot);
      BeforeFirstAt(s, '@', at);
      var d := s[at + 1..];
      assert d[dot - at - 1] == '.';
      forall j | 0 <= j < dot - at - 1
        ensures d[j] != '.'
      {
        assert d[j] == s[at + 1 + j];
        assert IsLabelChar(s[at + 1 + j]);
      }
      BeforeFirstAt(d, '.', dot - at - 1);
      assert IsEmail(s);
    }
  }

  // ---------------------------------------------------------------------
  // The save-time validation chain

  /** The form contents after strip: column to text. */
  type FormData = map<string, string>

  /** `data.get(k)` is truthy. */
  predicate Filled(d: FormData, k: string) { k in d && d[k] != "" }

  /** `data.get(k, "")`. */
  function Field(d: FormData, k: string): string { if k in d then d[k] else "" }

  datatype SaveError =
    | NameRequired
    | BadEmailAddress
    | BadEmailField(key: string)
    | ShortPhone
    | BadDateOfBirth
    | BadBik
    | BadAccount
    | BadCardNumber
    | BadCvv
    | BadExpiry
    | WeakPasswordDeclined

  /** The text of the error box for each rejection; a declined weak
      password closes the question box and shows nothing. */
  function Message(e: SaveError): string {
    match e
    case NameRequired => "Поле 'Название' обязательно!"
    case BadEmailAddress => "Некорректный Email адрес!"
    case BadEmailField(k) => "Некорректный " + k + "!"
    case ShortPhone => "Номер телефона слишком короткий!"
    case BadDateOfBirth => "Дата рождения должна быть в формате ДД.ММ.ГГГГ"
    case BadBik => "БИК должен состоять из 9 цифр!"
    case BadAccount => "Номер счета должен состоять из 20 цифр!"
    case BadCardNumber => "Номер карты некорректен!"
    case BadCvv => "CVV некорректен!"
    case BadExpiry => "Срок действия некорректен!"
    case WeakPasswordDeclined => ""
  }

  const PhoneKeys: seq<string> := ["phone", "recovery_phone", "cardholder_phone"]

  predicate BadEmail(d: FormData, k: string) { Filled(d, k) && !IsEmail(d[k]) }

  predicate ShortPhoneAt(d: FormData, k: string) { Filled(d, k) && |Digits(d[k])| < 10 }

  /** The inputs of `save` that are not form fields: the calendar check of
      `strptime(..., "%d.%m.%Y")`, the `notify_weak` setting and the answer
      the user would give to the weak-password question. */
  datatype SaveContext = SaveContext(dobValid: string -> bool, notifyWeak: bool, keepWeak: bool)

  /** The first check of `save` that fails, in the order the code makes
      them; None when the record may be written. */
  function FirstError(d: FormData, t: RecordType, ctx: SaveContext): (r: Option<SaveError>)
    ensures !Filled(d, "name") ==> r == Some(NameRequired)
  {
    if !Filled(d, "name") then Some(NameRequired)
    else if BadEmail(d, "email") then Some(BadEmailField("email"))
    else if BadEmail(d, "recovery_email") then Some(BadEmailField("recovery_email"))
    else if t == Email && BadEmail(d, "username") then Some(BadEmailAddress)
    else if ShortPhoneAt(d, "phone") || ShortPhoneAt(d, "recovery_phone") || ShortPhoneAt(d, "cardholder_phone") then Some(ShortPhone)
    else if Filled(d, "date_of_birth") && !ctx.dobValid(d["date_of_birth"]) then Some(BadDateOfBirth)
    else if t == Bank && Filled(d, "bank_bik") && |d["bank_bik"]| != 9 then Some(BadBik)
    else if t == Bank && Filled(d, "account_number") && |d["account_number"]| != 20 then Some(BadAccount)
    else if t == Card && |Field(d, "card_number")| < 13 then Some(BadCardNumber)
    else if t == Card && |Field(d, "card_cvv")| < 3 then Some(BadCvv)
    else if t == Card && '/' !in Field(d, "card_expire") then Some(BadExpiry)
    else if ctx.notifyWeak && 0 < |Field(d, "password")| < 8 && !ctx.keepWeak then Some(WeakPasswordDeclined)
    else None
  }

  /** The acceptance condition of `save` stated as independent rules, in
      no particular order. */
  predicate Acceptable(d: FormData, t: RecordType, ctx: SaveContext) {
    && Filled(d, "name")
    && !BadEmail(d, "email") && !BadEmail(d, "recovery_email")
    && (t == Email ==> !BadEmail(d, "username"))
    && (forall k :: k in PhoneKeys ==> !ShortPhoneAt(d, k))
    && (Filled(d, "date_of_birth") ==> ctx.dobValid(d["date_of_birth"]))
    && (t == Bank && Filled(d, "bank_bik") ==> |d["bank_bik"]| == 9)
    && (t == Bank && Filled(d, "account_number") ==> |d["account_number"]| == 20)
    && (t == Card ==> |Field(d, "card_number")| >= 13 && |Field(d, "card_cvv")| >= 3
                      && '/' in Field(d, "card_expire"))
    && (ctx.notifyWeak && 0 < |Field(d, "password")| < 8 ==> ctx.keepWeak)
  }

  /** The chain lets a record through exactly when every rule holds. */
  lemma FirstErrorIffRules(d: FormData, t: RecordType, ctx: SaveContext)
    ensures FirstError(d, t, ctx).None? <==> Acceptable(d, t, ctx)
  {
  }

  /** The rules the candidate list names, each on its own: any one of them
      broken makes `save` stop before writing. */
  lemma SaveRejections(d: FormData, t: RecordType, ctx: SaveContext)
    ensures (exists k :: k in PhoneKeys && ShortPhoneAt(d, k)) ==> FirstError(d, t, ctx).Some?
    ensures t == Bank && Filled(d, "bank_bik") && |d["bank_bik"]| != 9 ==> FirstError(d, t, ctx).Some?
    ensures t == Bank && Filled(d, "account_number") && |d["account_number"]| != 20 ==> FirstError(d, t, ctx).Some?
    ensures t == Card && (Field(d, "card_number") == "" || |Field(d, "card_number")| < 13) ==> FirstError(d, t, ctx).Some?
    ensures t == Card && (Field(d, "card_cvv") == "" || |Field(d, "card_cvv")| < 3) ==> FirstError(d, t, ctx).Some?
    ensures t == Card && (Field(d, "card_expire") == "" || '/' !in Field(d, "card_expire")) ==> FirstError(d, t, ctx).Some?
  {
    FirstErrorIffRules(d, t, ctx);
  }

  // ---------------------------------------------------------------------
  // Encryption of sensitive fields

  /** `encrypted_fields`, in the order `save` visits them. */
  const SensitiveFields: seq<string> :=
    ["password", "card_number", "card_cvv", "card_pin", "security_answer", "account_number", "passport_number"]

  /** The form data after the loop: exactly the non-empty sensitive fields
      are replaced by their encryption. `nonce` stands for the fresh
      randomness of each call. */
  function Sealed(c: Scheme, key: Key, nonce: string -> nat, d: FormData): (r: FormData)
    ensures r.Keys == d.Keys
  {
    map k | k in d :: if k in SensitiveFields && d[k] != "" then EncryptPassword(c, key, nonce(k), d[k]) else d[k]
  }

  /** `for f in encrypted_fields: if data.get(f): data[f] = encrypt(data[f])`. */
  method SealFields(c: Scheme, key: Key, nonce: string -> nat, d0: FormData) returns (d: FormData)
    ensures d == Sealed(c, key, nonce, d0)
  {
    d := d0;
    var i := 0;
    while i < |SensitiveFields|
      invariant 0 <= i <= |SensitiveFields|
      invariant d.Keys == d0.Keys
      invariant forall k :: k in d && k in SensitiveFields[..i] && d0[k] != "" ==>
        d[k] == EncryptPassword(c, key, nonce(k), d0[k])
      invariant forall k :: k in d && !(k in SensitiveFields[..i] && d0[k] != "") ==> d[k] == d0[k]
    {
      var f := SensitiveFields[i];
      assert SensitiveFields[..i + 1] == SensitiveFields[..i] + [f];
      if f in d && d[f] != "" {
        d := d[f := EncryptPassword(c, key, nonce(f), d[f])];
      }
      i := i + 1;
    }
    assert SensitiveFields[..i] == SensitiveFields;
  }

  /** Reading a saved record back recovers every field: sealed fields
      decrypt to what was typed, every other field is stored verbatim. */
  lemma SealedRecoverable(c: Scheme, key: Key, nonce: string -> nat, d: FormData, k: string)
    requires Sound(c) && k in d
    ensures k in SensitiveFields && d[k] != "" ==> DecryptPassword(c, key, Sealed(c, key, nonce, d)[k]) == d[k]
    ensures !(k in SensitiveFields && d[k] != "") ==> Sealed(c, key, nonce, d)[k] == d[k]
  {
    if k in SensitiveFields && d[k] != "" {
      DecryptEncrypt(c, key, nonce(k), d[k]);
    }
  }

  // ---------------------------------------------------------------------
  // Statement assembly

  /** The columns of `order` that `data` has, in `order`'s order. */
  function Present(order: seq<string>, keys: set<string>): (r: seq<string>)
    ensures forall c :: c in r <==> c in order && c in keys
    ensures |r| <= |order|
  {
    if order == [] then []
    else
      var last := order[|order| - 1];
      Present(order[..|order| - 1], keys) + (if last in keys then [last] else [])
  }

  /** `sub` can be obtained from `s` by deleting elements. */
  ghost predicate Subsequence(sub: seq<string>, s: seq<string>) {
    exists idx: seq<nat> ::
      && |idx| == |sub|
      && (forall i :: 0 <= i < |idx| ==> idx[i] < |s| && s[idx[i]] == sub[i])
      && (forall i, j :: 0 <= i < j < |idx| ==> idx[i] < idx[j])
  }

  /** The columns keep the canonical order. */
  lemma {:induction false} PresentInOrder(order: seq<string>, keys: set<string>)
    ensures Subsequence(Present(order, keys), order)
  {
    if order == [] {
      var idx: seq<nat> := [];
      assert |idx| == |Present(order, keys)|;
    } else {
      var init := order[..|order| - 1];
      var last := order[|order| - 1];
      PresentInOrder(init, keys);
      assert order == init + [last];
      if last in keys {
        SubsequenceSnoc(Present(init, keys), init, last);
      } else {
        SubsequenceExtend(Present(init, keys), init, last);
      }
    }
  }

  lemma SubsequenceExtend(sub: seq<string>, s: seq<string>, x: string)
    requires Subsequence(sub, s)
    ensures Subsequence(sub, s + [x])
  {
    var idx: seq<nat> :| |idx| == |sub| && (forall i :: 0 <= i < |idx| ==> idx[i] < |s| && s[idx[i]] == sub[i])
      && (forall i, j :: 0 <= i < j < |idx| ==> idx[i] < idx[j]);
    forall i | 0 <= i < |idx|
      ensures idx[i] < |s + [x]| && (s + [x])[idx[i]] == sub[i]
    {
    }
  }

  lemma SubsequenceSnoc(sub: seq<string>, s: seq<string>, x: string)
    requires Subsequence(sub, s)
    ensures Subsequence(sub + [x], s + [x])
  {
    var idx: seq<nat> :| |idx| == |sub| && (forall i :: 0 <= i < |idx| ==> idx[i] < |s| && s[idx[i]] == sub[i])
      && (forall i, j :: 0 <= i < j < |idx| ==> idx[i] < idx[j]);
    var idx' := idx + [|s|];
    forall i | 0 <= i < |idx'|
      ensures idx'[i] < |s + [x]| && (s + [x])[idx'[i]] == (sub + [x])[i]
    {
      if i < |idx| {
        assert idx'[i] == idx[i];
      }
    }
    forall i, j | 0 <= i < j < |idx'|
      ensures idx'[i] < idx'[j]
    {
      if j < |idx| {
        assert idx'[i] == idx[i] && idx'[j] == idx[j];
      }
    }
  }

  /** A column list drawn from a list without repetitions has none. */
  lemma {:induction false} PresentDistinct(order: seq<string>, keys: set<string>)
    requires forall i, j :: 0 <= i < j < |order| ==> order[i] != order[j]
    ensures var r := Present(order, keys); forall i, j :: 0 <= i < j < |r| ==> r[i] != r[j]
  {
    if order != [] {
      var init := order[..|order| - 1];
      var last := order[|order| - 1];
      PresentDistinct(init, keys);
      assert last !in init;
      assert last !in Present(init, keys);
    }
  }

  /** The loop of `save` that fills `insert_cols` and `insert_vals` (or
      `update_set`): every column of `order` in `data`, with its value. */
  method CollectColumns(order: seq<string>, data: map<string, Database.Value>)
    returns (cols: seq<string>, vals: seq<Database.Value>)
    ensures cols == Present(order, data.Keys)
    ensures |vals| == |cols| && forall i :: 0 <= i < |cols| ==> cols[i] in data && vals[i] == data[cols[i]]
  {
    cols := [];
    vals := [];
    var i := 0;
    while i < |order|
      invariant 0 <= i <= |order|
      invariant cols == Present(order[..i], data.Keys)
      invariant |vals| == |cols| && forall j :: 0 <= j < |cols| ==> cols[j] in data && vals[j] == data[cols[j]]
    {
      var col := order[i];
      assert order[..i + 1][..i] == order[..i];
      if col in data {
        cols := cols + [col];
        vals := vals + [data[col]];
      }
      i := i + 1;
    }
    assert order[..i] == order;
  }

  /** The row `save` binds: the stripped form texts after sealing, the type
      code, the favourite flag and the time stamp under `stampColumn`
      (`created_at` when adding, `updated_at` when editing). */
  function BoundData(sealed: FormData, t: RecordType, favourite: bool, stampColumn: string, now: string)
    : (r: map<string, Database.Value>)
    requires stampColumn == "created_at" || stampColumn == "updated_at"
    ensures r.Keys == sealed.Keys + {"type", "is_favorite", stampColumn}
    ensures r["type"] == Database.Text(Code(t))
    ensures r["is_favorite"] == Database.Int(if favourite then 1 else 0)
    ensures r[stampColumn] == Database.Text(now)
    ensures forall k :: k in sealed && k !in {"type", "is_favorite", stampColumn} ==> r[k] == Database.Text(sealed[k])
  {
    var base := map k | k in sealed :: Database.Text(sealed[k]);
    base["type" := Database.Text(Code(t))]["is_favorite" := Database.Int(if favourite then 1 else 0)]
      [stampColumn := Database.Text(now)]
  }
}
