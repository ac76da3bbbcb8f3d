# CodeKeeper password vault — a Dafny model of its core

CodeKeeper is a Tkinter password vault. Records live in an SQLite table
`passwords`. A sensitive field is stored encrypted with a Fernet key kept in
`encryption.key`. The master password is stored only as its SHA-256 hash, in
the `app_settings` table. Preferences live in `config.json`.

This project models the logic behind the windows. Each core source file is
one Dafny module:

- `database.dfy` (`Database`): the tables as a class. The column list is an
  `Option<seq<string>>`, where None means the table is absent. Records are a
  map from id to row, and settings a key/value map. It covers
  `init_database`, the additive migration `ensure_columns`, the settings and
  record statements the windows issue, and `get_encryption_key` over a key
  file of type `Option<Key>`.
- `records.dfy` (`Records`) and `editform.dfy` (`EditForm`): the record form
  of `src/windows/add_edit.py`, covering:
  - the type maps, `layout_map`, and the per-keystroke validators;
  - the email grammar and the validation chain of `save`;
  - the encryption of the sensitive fields and the canonical column list of
    the INSERT/UPDATE;
  - `refresh_fields`, `add_custom_field` (at most 10, two per row) and
    `fill_data`.
- `table.dfy` (`Table`): `reload_data` of `src/ui/table.py`, covering:
  - the sort clause, the type filter and the search, both as SQLite runs
    it and corrected to fold Cyrillic as well;
  - the projection of each row: login, starred name, date and the "expired"
    tag;
  - the checked-id set under clicks, select-all and the context menu;
  - the status bar.
- `session.dfy` (`Session`): `src/app.py`, covering:
  - inactivity auto-lock, lock and unlock;
  - the master-password gate `verify_master_password`;
  - `update_last_used` and the automatic-backup decision;
  - which ids edit and delete act on.
- `login.dfy` (`Login`): the login and lock screen as a state machine over
  the `master_hash` row.
- `settings.dfy` (`SettingsWindow`): covering:
  - the normalisation done by the settings form;
  - `save_settings`, the manual backup and `change_master_password`.
- `config.dfy` (`Config`): `load_config`, which merges in the defaults, and
  `save_config`, over an abstract file.
- `generator.dfy` (`Generator`): the character set of the password
  generator, the drawn password, and `apply_password`.
- `details.dfy` (`Details`): the detail view, covering:
  - which fields become rows, in which order, with which label;
  - which rows are masked;
  - the eye and copy buttons, and the window height.
- `colors.dfy` (`Colors`): `darken` of `src/utils.py`, including what
  `int(s, 16)` makes of spaces and signs inside a pair.
- Helper modules:
  - `text.dfy` (`Text`) holds the Python string operations the code relies
    on;
  - `crypto.dfy` (`Crypto`) holds the cipher interface;
  - `wrappers.dfy` (`Wrappers`) holds `Option`, `SetOf` and `Distinct`.

How the environment is modelled:

- Hashing is a parameter `hash`.
- Fernet is a `Scheme` value with `seal` and `open` functions. A `Sound`
  predicate requires that decryption inverts encryption.
- Time is an integer number of seconds, and `strptime` is a parameter.
- `random.choice` is a parameter `draw`.
- Dialog answers and the outcomes of file operations are parameters.

Objects whose fields the program updates in place are classes: `Db`,
`KeyFile`, `ConfigFile`, `Form`, `TableView`, `App`, `LoginWindow`,
`Window`, `GeneratorWindow` and `DetailModal`. Their methods are tied to
the specification functions beside them.

## Model

| member | source | states |
|---|---|---|
| Text.Digits | src/windows/add_edit.py:571 | the filtered text holds only digits, keeps every digit character of the input and adds none |
| Text.DigitsOfDecimal | src/windows/add_edit.py:571 | an all-digit text passes the filter unchanged |
| Text.DigitsCounts | src/windows/add_edit.py:571-572 | each digit occurs in the filtered text as often as in the input and nothing else occurs, so `len(digits)` is the number of digits |
| Text.DigitsAppend | src/windows/add_edit.py:571 | filtering a concatenation concatenates the filtered parts |
| Text.DigitsSingle | src/windows/add_edit.py:571 | one character is kept exactly when it is a digit |
| Text.RemoveChar | src/windows/generator.py:135 | `replace(c, "")` leaves no `c`, and keeps exactly the other characters |
| Text.RemoveCharCounts | src/windows/generator.py:135 | every other character is kept as many times as it occurs, and `c` not at all |
| Text.RemoveCharAppend | src/windows/generator.py:135 | the kept characters keep their order: removing from `a + b` is removing from `a`, then from `b` |
| Text.RemoveCharAbsent | src/windows/generator.py:135 | a text without `c` is returned unchanged |
| Text.ReplaceChar | src/windows/details.py:129 | `replace(a, b)` keeps the length, leaves no `a` when `a != b`, and changes no position except an `a` into `b` |
| Text.Strip | src/windows/add_edit.py:548 | the stripped text neither starts nor ends with whitespace |
| Text.StripContained | src/windows/add_edit.py:548 | the stripped text occurs in the input |
| Text.StripIdempotent | src/windows/add_edit.py:548-550 | stripping twice is stripping once |
| Text.StripCutsOnlySpace | src/windows/add_edit.py:548-550 | the stripped text is the input from some `k` on; everything before `k` and after it is whitespace, and the character at `k` is not |
| Text.StripShorter | src/windows/add_edit.py:548-550 | stripping never lengthens the text |
| Text.StripBlank | src/windows/add_edit.py:550 | an empty entry, and the lone newline a text box returns, strip to "" |
| Text.FirstToken | src/ui/table.py:188 | `split()[0]` is non-empty and starts and ends with non-whitespace; it is absent exactly when the text is all whitespace |
| Text.FirstTokenContained | src/ui/table.py:188 | a token that exists occurs in the text |
| Text.FirstTokenIsFirst | src/ui/table.py:188 | the token stands at some `k` with only whitespace before it, and is followed by whitespace or the end |
| Text.BeforeFirst | src/windows/details.py:137-141 | `split(c)[0]` is the prefix up to the first `c`: it has no `c`, and the next character is `c` |
| Text.PyLower | src/ui/table.py:134 | Python `lower()` keeps the length and maps each capital to its own small letter: A–Z and А–Я move 32 code points on (A→a, А→а), Ё becomes ё; no capital is left and no other character changes |
| Text.SqlLower | src/ui/table.py:175 | SQLite `lower()` keeps the length, turns each ASCII capital into its own small letter (32 code points on), and changes nothing that is not an ASCII capital |
| Text.PyLowerIdempotent | src/ui/table.py:134 | lowering twice is lowering once |
| Text.SqlLowerKeepsNonAscii | src/ui/table.py:175 | SQLite `lower()` leaves every non-ASCII character, Cyrillic capitals included, unchanged |
| Text.Title | src/windows/details.py:129 | `title()` keeps the length and every non-letter, keeps each letter the same letter up to case, upper-cases a letter that starts a word and lower-cases a letter that follows a letter |
| Text.TitleIdempotent | src/windows/details.py:129 | applying `title()` twice is applying it once |
| Text.NatToString | src/ui/table.py:266-270 | `str(n)` is a non-empty string of digits |
| Text.NatToStringRoundTrip | src/ui/table.py:266-270 | reading the digits of `str(n)` back gives `n` |
| Text.ParseInt | src/windows/settings.py:314 | `int(s)` succeeds only on text with something left after stripping; the stripped text is then read by `SignedDecimal` |
| Text.SignedDecimal | src/windows/settings.py:314 | the stripped text is accepted exactly when it is decimal digits, optionally after one '+' or '-'; the value is that of the digits, negated after '-' |
| Text.ParseIntRoundTrip | src/windows/settings.py:314 | `int(str(i)) == i` for every integer |
| Text.ParseIntRejects | src/windows/settings.py:313-317 | text without a single digit (such as an empty spinbox) does not parse |
| Text.StrCmp | src/ui/table.py:253 | comparison by code point gives -1, 0 or 1, and 0 exactly for equal texts |
| Text.StrCmpAntisym | src/ui/table.py:253 | swapping the arguments negates the comparison |
| Text.StrCmpTrans | src/ui/table.py:253 | the comparison is transitive |
| Crypto.DecryptPassword | src/app.py:164-169 | decryption never fails: an unreadable token gives "Ошибка", and a readable one its plaintext |
| Crypto.EncryptPassword | src/app.py:160-162 | under a sound scheme the token decrypts to the plaintext |
| Crypto.DecryptEncrypt | src/app.py:160-169 | under a sound scheme, what was encrypted decrypts to itself |
| Crypto.EncryptionsAgreeOnPlaintext | src/app.py:160-162 | two encryptions of one text under different nonces decrypt to the same plaintext |
| Config.Defaults | src/config.py:16-28 | exactly the keys of `default_config`, with auto-lock after 5 minutes and an empty backup path and last backup date |
| Config.DefaultsSafe | src/config.py:16-28 | by default a login is required, a copy is not confirmed, passwords are hidden in the table and expiry is reported |
| Config.Merge | src/config.py:44-46 | the merged keys are the file keys plus the default keys; file values win, and defaults fill only missing keys |
| Config.Loaded | src/config.py:9-51 | every default key is present after loading, and every file key keeps its value; a missing or corrupt file gives exactly the defaults |
| Config.LoadedComplete | src/config.py:35-47 | a file that already has every key loads as itself |
| Config.LoadSaveLoad | src/config.py:35-59 | loading what was loaded and saved gives the same settings |
| Config.MergeDefaults | src/config.py:44-46 | the merging loop computes `Merge` |
| Config.ConfigFile.Load | src/config.py:9-51 | the loaded settings are `Loaded` of the stored file |
| Config.ConfigFile.Save | src/config.py:54-59 | the file afterwards holds exactly the dictionary |
| Config.SaveThenLoad | src/config.py:35-59 | saving the loaded settings and loading again returns them unchanged |
| Colors.HexValue | src/utils.py:29-31 | a hexadecimal digit of either case has a value below 16 |
| Colors.HexDigit | src/utils.py:39 | the digit written for `n` is lower case and reads back as `n` |
| Colors.ParseHex | src/utils.py:29-31 | `int(s, 16)` of a slice gives a value above -16 and below 256, or raises |
| Colors.HexDigits | src/utils.py:29-31 | at most two hex digits parse exactly when the text is non-empty hex; a pair gives 16·high + low, below 256 |
| Colors.SignedHex | src/utils.py:29-31 | stripped text parses exactly when it is hex digits, or a '+' or '-' followed by hex digits; the value lies between -16 and 256 |
| Colors.ParseHexOfDigits | src/utils.py:29-31 | a slice of hex digits alone parses as their value |
| Colors.ParseSpaced | src/utils.py:29-31 | a space before or after a hex digit is ignored, so " a" and "a " are 10 |
| Colors.ParseSpaceThenDigit | src/utils.py:29-31 | a space before a hex digit is ignored |
| Colors.ParseDigitThenSpace | src/utils.py:29-31 | a space after a hex digit is ignored |
| Colors.SingleHexDigit | src/utils.py:29-31 | one stripped hex digit reads as its value |
| Colors.ParseSigned | src/utils.py:29-31 | a sign before a digit is taken: "-f" is -15 and "+a" is 10 |
| Colors.ParseBlank | src/utils.py:29-31 | a blank slice raises |
| Colors.ParseSignOrPrefixAlone | src/utils.py:29-31 | a sign without a digit raises, and so does "0x" |
| Colors.EndsInNonDigit | src/utils.py:29-31 | a slice of one or two characters, with no whitespace at either end and not a sign followed by a character, raises when its last character is not a hex digit |
| Colors.ToHex | src/utils.py:39 | unpadded lower-case hex: at most two digits below 256 |
| Colors.Hex2 | src/utils.py:39 | `format(n, '02x')` is lower-case hex and at least two characters; a negative number gets a leading '-'; a number `int(s, 16)` of a slice can give takes exactly two |
| Colors.Hex2RoundTrip | src/utils.py:29-39 | parsing a formatted number gives the number, for every value a slice can parse to, signed ones included |
| Colors.Hex2Digits | src/utils.py:39 | a channel is written as two hex digits that read back as the channel |
| Colors.ParseHexRoundTrip | src/utils.py:29-39 | formatting a parsed lower-case pair gives the pair |
| Colors.LStrip | src/utils.py:26 | `lstrip('#')` cuts exactly the leading run of '#' |
| Colors.Slice | src/utils.py:29-31 | Python slicing clips the bounds to the length |
| Colors.Scale | src/utils.py:34-36 | `int(c * factor)` truncates toward zero: the floor of c·num/den for a non-negative channel and minus the floor of -c·num/den for a negative one, never further from 0 than `c` when the factor is at most 1 |
| Colors.Darken | src/utils.py:18-39 | input without '#' gives "#cccccc"; otherwise the result is None exactly where a channel does not parse, and else '#' followed by lower-case hex digits and minus signs |
| Colors.ChannelsOfColor | src/utils.py:26-31 | for "#RRGGBB", each channel comes from its own digit pair |
| Colors.DarkenColor | src/utils.py:26-39 | a well-formed colour darkens to a well-formed colour whose channels are the scaled input channels; red, green and blue are each at most their input |
| Colors.FormatPairs | src/utils.py:39 | the formatted colour is well-formed and its pairs read back as the three channels |
| Colors.DarkenChannels | src/utils.py:26-39 | a well-formed colour darkens to a well-formed colour whose channels are the scaled input channels |
| Colors.DarkenFormats | src/utils.py:26-39 | a well-formed colour darkens to the format of its three scaled channels |
| Colors.DarkenByOne | src/utils.py:18-39 | with factor 1, a lower-case colour is returned unchanged |
| Colors.FormatOfPairs | src/utils.py:39 | formatting the pairs of a lower-case colour gives the colour back |
| Colors.DarkenShort | src/utils.py:26-31 | fewer than five characters after the '#'s leave an empty slice, and `int('', 16)` raises |
| Colors.DarkenOf | src/utils.py:26-39 | '#' and three parsing pairs darken to the format of the three scaled values |
| Colors.DarkenSigned | src/utils.py:26-39 | "#-f0000" darkens to "#-c0000" |
| Colors.DarkenSpaced | src/utils.py:26-39 | "# a0000" darkens to "#080000" |
| Database.Missing | src/database.py:67-75 | at most one ALTER per required column |
| Database.Added | src/database.py:71-77 | the added columns are among the missing ones |
| Database.MissingMembers | src/database.py:71-75 | an ALTER is issued exactly for the required columns absent from the column set |
| Database.AddedMembers | src/database.py:71-77 | a column is added exactly when it is required, absent, and its ALTER does not fail |
| Database.MigrationKeepsExisting | src/database.py:71-75 | existing columns keep their place, and none of them is re-added |
| Database.MigrationColumns | src/database.py:49-77 | afterwards the columns are the old ones plus the required ones whose ALTER did not fail; with no failure, existing ∪ required |
| Database.MigrationIdempotent | src/database.py:67-77 | a second run adds nothing and leaves the column list as it is |
| Database.FailureIsolated | src/database.py:71-77 | one failing ALTER does not stop any other missing column from being added |
| Database.AddColumn | src/database.py:51 | every row gains the column with its declared default (0 for `is_favorite`, NULL otherwise), and its other cells are kept |
| Database.Lookup | src/windows/add_edit.py:634 | a listed column's value is the value at its position |
| Database.NewRow | src/windows/add_edit.py:634-635 | an inserted row has every table column: listed ones take the bound value, the others their declared default |
| Database.UpdatedRow | src/windows/add_edit.py:643-644 | an update rewrites exactly the listed columns of the row |
| Database.Db.Empty | src/database.py:12 | a new database file has no tables and no rows |
| Database.Db.InitDatabase | src/database.py:6-39 | each table is created only when absent, and an existing one is kept; the record table is then migrated, every existing row keeps its cells and no id is taken |
| Database.Db.EnsureColumns | src/database.py:42-77 | the ALTERs attempted are `Missing` of the column set read once; the table becomes `Migrated`, and every row keeps its cells |
| Database.Db.AddMissing | src/database.py:71-77 | the loop over a column list attempts exactly the missing columns |
| Database.Db.AlterAdd | src/database.py:74-75 | one ALTER appends the column to the table and to every row |
| Database.Db.CreateSettingsTable | src/database.py:32-33 | `app_settings` is created empty when absent, and kept otherwise |
| Database.Db.GetSetting | src/windows/login.py:58-60 | a value is found exactly when the table exists and has the key |
| Database.Db.InsertSetting | src/windows/login.py:143-144 | the insert succeeds exactly when the key is new, and it then adds only that key; a duplicate key changes nothing |
| Database.Db.UpdateSetting | src/windows/settings.py:300-301 | an existing key takes the value; without the row nothing changes |
| Database.Db.DeleteSetting | src/windows/login.py:164-165 | only that key is removed |
| Database.Db.Insert | src/windows/add_edit.py:634-635 | the insert succeeds exactly when the table has every listed column; it then adds `NewRow` under the next id, and otherwise writes nothing |
| Database.Db.Update | src/windows/add_edit.py:643-644 | with known columns, the row of `id` (if any) becomes `UpdatedRow`, and nothing else changes |
| Database.Db.Delete | src/app.py:292-294 | exactly the given ids are removed |
| Database.Db.SetLastUsed | src/app.py:174-175 | `last_used_at` of that row is stamped when the column exists; no other cell or row changes |
| Database.AlterLoop | src/database.py:71-77 | the loop attempts `Missing`, grows the table by `Added`, and keeps every row's cells in step with the columns |
| Database.LoadOrCreateKey | src/database.py:80-95 | an existing key is returned and the file is kept; otherwise the generated key is written and returned |
| Database.KeyStable | src/database.py:86-95 | once a key exists, loading never replaces it, whatever key would be generated |
| Database.KeyFile.GetEncryptionKey | src/database.py:80-95 | reads an existing key without writing; an absent file gets the generated key, which is also returned |
| Database.LoadTwice | src/database.py:86-95 | two loads in a row return the same key, the one the file then holds |
| Records.TypeOfDisplay | src/windows/add_edit.py:553 | a combobox label maps to its type, and anything else to WEB |
| Records.TypeOfCode | src/windows/add_edit.py:506 | a stored code maps to its type, and anything else to WEB |
| Records.TypeMapsRoundTrip | src/windows/add_edit.py:36-46 | the two dictionaries are inverse: every type survives a trip through its label and through its code |
| Records.LayoutKeysSaved | src/windows/add_edit.py:238-246 | every input of every layout is a column the statements may list |
| Records.ColumnsInSchema | src/windows/add_edit.py:618-619 | every column `save` may list exists once the migration has run |
| Records.AcceptsEmpty | src/windows/add_edit.py:431-453 | every validator accepts the empty entry |
| Records.AcceptsPrefix | src/windows/add_edit.py:431-453 | every validator is prefix-closed, so an accepted text can be typed one character at a time |
| Records.StrictFieldNewline | src/windows/add_edit.py:449-453 | strict fields allow Latin and Cyrillic letters (but not Ё/ё), digits, '-' and '_'; `$` also lets one final newline through |
| Records.EmailDecision | src/windows/add_edit.py:558 | the search-free email test accepts exactly what the regular expression matches |
| Records.FirstError | src/windows/add_edit.py:555-610 | the first failing check of `save`, in code order: an empty name is always `NameRequired` |
| Records.FirstErrorIffRules | src/windows/add_edit.py:555-610 | `save` lets a record through exactly when every independent rule holds (name, emails, phones, date of birth, BANK and CARD rules, weak-password answer) |
| Records.SaveRejections | src/windows/add_edit.py:568-606 | it rejects a short phone, a BANK BIK of length other than 9, an account of length other than 20, and a CARD number under 13, a CVV under 3 or an expiry without '/' |
| Records.Sealed | src/windows/add_edit.py:611-615 | sealing keeps the set of keys |
| Records.SealFields | src/windows/add_edit.py:611-615 | the encryption loop computes `Sealed` |
| Records.SealedRecoverable | src/windows/add_edit.py:611-615 | exactly the non-empty sensitive fields are encrypted, and decrypt back to what was typed; every other field is stored verbatim |
| Records.Present | src/windows/add_edit.py:628-641 | the listed columns are exactly the canonical columns the data has |
| Records.PresentInOrder | src/windows/add_edit.py:630-632 | the column list keeps the canonical order |
| Records.PresentDistinct | src/windows/add_edit.py:618-641 | no column is listed twice |
| Records.CollectColumns | src/windows/add_edit.py:630-633 | the loop collects `Present` with each column's value at its position |
| Records.BoundData | src/windows/add_edit.py:625-637 | the bound row is the sealed texts plus the type code, the favourite flag as 0/1, and the time stamp |
| EditForm.WidgetKinds | src/windows/add_edit.py:386-425 | notes are a Text box; the OFFLINE code gets a masked Entry, because "password" is tested before "text" |
| EditForm.Fields | src/windows/add_edit.py:386-425 | each key names an input that got a widget |
| EditForm.FieldsMembers | src/windows/add_edit.py:386-425 | a key has a widget exactly when some input with a widget uses it |
| EditForm.CustomRowsShape | src/windows/add_edit.py:290-298 | n custom inputs fill (n+1)/2 rows of two, with a single last row when n is odd |
| EditForm.CustomRowsInOrder | src/windows/add_edit.py:292-299 | read row by row, the rows list custom_field_1 to custom_field_n in order |
| EditForm.PairUp | src/windows/add_edit.py:290-298 | the pairing loop builds `CustomRows(n)` |
| EditForm.CustomRowsPair | src/windows/add_edit.py:294-296 | two more inputs add one full row |
| EditForm.CustomRowsSingle | src/windows/add_edit.py:297-298 | an odd input ends in a single row |
| EditForm.ReadOne | src/windows/add_edit.py:276-280 | what `get` returns strips like the contents (a Text box adds a final newline) |
| EditForm.TrimEndAppend | src/windows/add_edit.py:548-550 | a trailing whitespace character does not change the right-trimmed text |
| EditForm.StripNewline | src/windows/add_edit.py:548-550 | a final newline does not change the stripped value |
| EditForm.Put | src/windows/add_edit.py:308-314 | an Entry refuses a text its validator rejects; widget contents always respect the validator |
| EditForm.Blank | src/windows/add_edit.py:227-229 | a rebuilt form has every widget empty, which every validator admits |
| EditForm.Current | src/windows/add_edit.py:275-280 | the saved values cover the widgets of the old form |
| EditForm.Restored | src/windows/add_edit.py:307-314 | after the redraw, each new widget holds what its validator admits |
| EditForm.Data | src/windows/add_edit.py:545-550 | `data` has a value for every widget |
| EditForm.RestoreKeepsData | src/windows/add_edit.py:274-314 | a redraw loses nothing: a key on both forms saves the same text afterwards |
| EditForm.EntryKinds | src/windows/add_edit.py:386-403 | "entry…" kinds get an Entry, and "password…" kinds a masked Entry |
| EditForm.CustomLayoutKinds | src/windows/add_edit.py:288-305 | with n custom inputs every input is an Entry, and notes the only Text box |
| EditForm.FieldKindOk | src/windows/add_edit.py:386-425 | an input of a layout kind gets the widget its key expects |
| EditForm.FieldsKinds | src/windows/add_edit.py:386-425 | the widgets of a list of inputs agree with their keys |
| EditForm.LayoutKinds | src/windows/add_edit.py:238-257 | every layout `refresh_fields` draws has Entries only, plus the notes Text box |
| EditForm.LayoutUsual | src/windows/add_edit.py:238-257 | every layout uses only the usual kinds |
| EditForm.UsualWeb | src/windows/add_edit.py:239 | the WEB layout uses only the usual kinds |
| EditForm.UsualOffline | src/windows/add_edit.py:240 | the OFFLINE layout uses only the usual kinds |
| EditForm.UsualSocial | src/windows/add_edit.py:241 | the SOCIAL layout uses only the usual kinds |
| EditForm.UsualEmail | src/windows/add_edit.py:242 | the EMAIL layout uses only the usual kinds |
| EditForm.UsualBank | src/windows/add_edit.py:243 | the BANK layout uses only the usual kinds |
| EditForm.UsualCard | src/windows/add_edit.py:244 | the CARD layout uses only the usual kinds |
| EditForm.UsualCustom | src/windows/add_edit.py:245-257 | the CUSTOM layout with its notes row uses only the usual kinds |
| EditForm.RestoreBlank | src/windows/add_edit.py:307-314 | an empty form redrawn is empty again |
| EditForm.LoadedHolds | src/windows/add_edit.py:527-541 | loading a value keeps the widget within its validator |
| EditForm.LoadLoop | src/windows/add_edit.py:527-541 | the loop over the widgets sets each one by itself, whatever the visiting order |
| EditForm.LastFilledSpec | src/windows/add_edit.py:512-515 | the computed index is the last filled custom field: it is filled, and none after it is |
| EditForm.MaxCustomIndex | src/windows/add_edit.py:512-515 | the loop computes `LastFilled(d, 10)` |
| EditForm.ShownCustomCount | src/windows/add_edit.py:516 | `max(2, max_idx)` lies in 2..10 |
| EditForm.StatementOf | src/windows/add_edit.py:628-643 | the statement lists exactly the canonical columns the row has, each with its value |
| EditForm.Collected | src/windows/add_edit.py:628-641 | what the loop of `save` collects is that statement |
| EditForm.SavedFieldReadsBack | src/windows/add_edit.py:525-541 | what editing shows for a column saved from a filled field is what was typed |
| EditForm.StatementShape | src/windows/add_edit.py:618-641 | the statement keeps the canonical order, has no repeats, and always sets type, favourite and the stamp |
| EditForm.SaveOrderHas | src/windows/add_edit.py:618-638 | the canonical list holds `type`, `is_favorite` and the stamp column |
| EditForm.Redrawn | src/windows/add_edit.py:268-314 | `add_custom_field` leaves a consistent form, and an empty form stays empty |
| EditForm.Form.constructor | src/windows/add_edit.py:15-70 | the first type is selected; in add mode its fields are drawn empty |
| EditForm.BlankConsistent | src/windows/add_edit.py:221-257 | empty texts for every widget of agreeing kinds fit the layout |
| EditForm.Form.RefreshFields | src/windows/add_edit.py:221-257 | every widget is rebuilt empty for the current type, and CUSTOM starts again at two custom inputs |
| EditForm.Form.SelectType | src/windows/add_edit.py:168-172 | choosing a label selects its type and redraws that type's empty form; a custom record starts with two custom fields |
| EditForm.Form.Edit | src/windows/add_edit.py:431-459 | a keystroke is taken exactly when the validator admits the new text; a Text box is cut back to 60 characters |
| EditForm.Form.AddCustomField | src/windows/add_edit.py:268-314 | nothing happens at ten fields; otherwise one more input, the rows rebuilt in pairs, and every surviving value restored |
| EditForm.Form.Regrow | src/windows/add_edit.py:274-314 | one custom input more, the rows rebuilt as `CustomLayout`, and every surviving value read back and put into its new widget |
| EditForm.Form.TakeTypeAndFlag | src/windows/add_edit.py:504-510 | the record's type is selected and its favourite flag copied |
| EditForm.Form.FillDataAsWritten | src/windows/add_edit.py:502-541 | as written, a CUSTOM record always ends with two custom inputs |
| EditForm.Form.DrawAsWritten | src/windows/add_edit.py:511-524 | the drawing step as written leaves the count at 2 |
| EditForm.Form.FillData | src/windows/add_edit.py:502-541 | corrected: a CUSTOM record shows inputs up to its last filled custom field, and every widget holds its loaded value |
| EditForm.Form.Draw | src/windows/add_edit.py:511-524 | the corrected drawing step gives `ShownCustomCount` inputs |
| EditForm.Form.GrowCustom | src/windows/add_edit.py:518-522 | the `while` loop grows the form to the needed count |
| EditForm.Form.LoadValues | src/windows/add_edit.py:525-541 | each widget gets its loaded value |
| EditForm.Form.Save | src/windows/add_edit.py:543-644 | a failing check writes nothing; otherwise the sealed, canonical statement is written by INSERT (add) or UPDATE (edit) |
| EditForm.Store | src/windows/add_edit.py:628-644 | the statement runs as an INSERT when adding and an UPDATE when editing, with its effect on the table |
| Table.OrderBy | src/ui/table.py:143-163 | the clause is one of the ten clauses or the default |
| Table.OrderByOptions | src/ui/table.py:144-163 | each of the ten sort labels gets its own clause |
| Table.OrderByDefault | src/ui/table.py:143 | any other text gives "created_at DESC" |
| Table.SearchTerm | src/ui/table.py:134-136 | the term is lower case, and is either the lowered entry or empty |
| Table.PlaceholderSearchesNothing | src/ui/table.py:134-136 | the placeholder "Поиск..." searches for nothing |
| Table.NoFilterKeepsAll | src/ui/table.py:171-176 | "Все" and an empty search keep every record |
| Table.FoldHitFindsTyped | src/ui/table.py:174-176 | the intended search finds a name containing what was typed, in any case |
| Table.SearchAgreesWithoutCyrillicCapitals | src/ui/table.py:174-176 | without Cyrillic capitals the search as written and the intended one agree |
| Table.LikeHitFindsTyped | src/ui/table.py:174-176 | the search as written finds a name containing what was typed, in any case, when the name holds no Cyrillic capital |
| Table.SelectMissesCyrillicCapital | src/ui/table.py:168-179 | as written, typing "Сбер" leaves a table holding only "Сбербанк" empty; the corrected query returns that record |
| Table.SelectAgreesWithoutCyrillicCapitals | src/ui/table.py:168-179 | on a table without Cyrillic capitals in names and logins, the query as written returns exactly what the corrected one returns |
| Table.SearchMissesCyrillicCapital | src/ui/table.py:174-176 | as written, "Сбер" does not find "Сбербанк"; the intended search does |
| Table.Select | src/ui/table.py:168-179 | the query returns only known ids of `order` that pass the WHERE clause: with `AsWritten` the program's SQLite search, with `Intended` the corrected one |
| Table.SelectPositions | src/ui/table.py:168-179 | the query is `order` filtered: its ids are those at increasing positions of `order`, and a position is taken exactly when its id is known and passes the WHERE clause (ORDER BY keeps `order`) |
| Table.KeptExactly | src/ui/table.py:168-179 | the kept positions increase, and a position is kept exactly when its id is known and passes |
| Table.SelectIsKept | src/ui/table.py:168-179 | the k-th id the query returns is the id at the k-th kept position |
| Table.SelectDistinct | src/ui/table.py:168-179 | over distinct ids (a table's primary keys) the query returns each id at most once |
| Table.SelectComplete | src/ui/table.py:168-179 | either query misses no id of `order` that passes its WHERE clause |
| Table.LoginShown | src/ui/table.py:187 | the username when truthy, else the email when truthy, else "-" |
| Table.DateShown | src/ui/table.py:188 | "-" for a falsy date, else the first token of the text, and None where Python raises |
| Table.NameShown | src/ui/table.py:189 | a favourite gets "★ " in front of a text name (a non-text name raises); otherwise the name as is |
| Table.Expired | src/ui/table.py:193-200 | expired needs `notify_expired` and a text `updated_at`; it holds exactly when the stamp parses and lies more than 365 whole days back |
| Table.Project | src/ui/table.py:184-207 | a projected row carries the id and 6 or 7 cells: the check mark, the shown type, the (starred) name, the login, the category or "-", the mask when passwords are shown, and the first token of the creation date last; its tag is `Expired` of `updated_at` |
| Table.ProjectRaises | src/ui/table.py:184-209 | a row raises exactly when its name or its date does |
| Table.ProjectAll | src/ui/table.py:183-209 | the loop stops at the first row that raises; it finishes exactly when every row was inserted |
| Table.ProjectAllInOrder | src/ui/table.py:183-209 | the rows keep the query order, one per fetched id |
| Table.SqlLeTotal | src/ui/table.py:253 | SQLite's order on the stamps is total |
| Table.SqlLeTrans | src/ui/table.py:253 | that order is transitive |
| Table.Latest | src/ui/table.py:252-254 | `ORDER BY … DESC LIMIT 1` finds a value exactly when the table has rows, and that value is one of them |
| Table.LatestIsGreatest | src/ui/table.py:252-254 | no stamp is above the one found |
| Table.Stamps | src/ui/table.py:253 | one `COALESCE(updated_at, created_at)` per record |
| Table.Minutes | src/ui/table.py:262 | `int(seconds / 60)` truncates toward zero |
| Table.Bucket | src/ui/table.py:263-270 | under 1 minute "только что"; then minutes, hours and days by the thresholds 60 and 1440 |
| Table.BucketCounts | src/ui/table.py:267-270 | an hour bucket shows 1 to 23, and a day bucket at least 1 |
| Table.LastChange | src/ui/table.py:256-272 | "нет данных" for an empty table or a stamp that is not text |
| Table.DeleteLabel | src/ui/table.py:284-287 | the label is bare exactly when nothing is checked; it always starts with " Удалить" |
| Table.StatusText | src/ui/table.py:274-275 | the status line opens with the number of rows shown and ends with the last-change wording |
| Table.OnClick | src/ui/table.py:291-343 | a heading does nothing, a click beside the rows clears, and a click on a row toggles it unless it copied the login or the password |
| Table.RefusedPasswordClickToggles | src/ui/table.py:317-340 | a password click whose confirmation is refused toggles the row |
| Table.Toggled | src/ui/table.py:335-340 | exactly the clicked id changes membership |
| Table.ToggledTwice | src/ui/table.py:335-340 | clicking the same row twice restores the set |
| Table.ToggleAll | src/ui/table.py:232-237 | intended: clear when every shown row is checked, otherwise check exactly the shown rows |
| Table.ToggleAllChecksUnchecked | src/ui/table.py:232-237 | with an unchecked row on screen every shown row becomes checked, and a second press clears them |
| Table.ToggleAllAsWrittenClearsUnchecked | src/ui/table.py:232-237 | as written, a checked hidden id makes the button clear a set that misses a shown row |
| Table.ToggleAllAgreesOnShownIds | src/ui/table.py:232-237 | when only shown ids are checked, as written and intended agree |
| Table.ToggleAllAsWritten | src/ui/table.py:232-237 | as written, the result is either empty or exactly the shown ids; with rows on screen it is empty exactly when the checked set has as many ids as there are rows |
| Table.Fill | src/ui/table.py:183-209 | the insertion loop computes `ProjectAll` |
| Table.TableView.constructor | src/ui/table.py:18-21 | the table starts with no rows and no checked ids |
| Table.TableView.Reload | src/ui/table.py:126-211 | over the table's ids, each once, the clause is `OrderBy`, the rows are `ProjectAll` of `Select` (the program's query with `AsWritten`), and the checked set is kept; every row's mark shows whether its id is checked |
| Table.ProjectAllMarks | src/ui/table.py:184-207 | each drawn row's mark is "☑" exactly when its id is checked |
| Table.TableView.Click | src/ui/table.py:291-343 | a toggle flips the id and redraws that row's mark, a clear empties the set and blanks every mark, and a copy leaves both; marks that showed the checked set still do |
| Table.TableView.ClearSelection | src/ui/table.py:213-224 | nothing stays checked and every mark becomes "☐" |
| Table.TableView.ToggleAllChecksAsWritten | src/ui/table.py:226-244 | as written: the checked set becomes `ToggleAllAsWritten` of the shown ids, and every row gets the one mark that matches it |
| Table.TableView.ToggleAllChecks | src/ui/table.py:226-244 | corrected: the checked set becomes `ToggleAll` of the shown ids, and every row gets the one mark that matches it |
| Table.TableView.ContextSelect | src/ui/table.py:355-364 | a right click leaves exactly that row checked and redraws no mark |
| Table.ContextSelectLeavesMarks | src/ui/table.py:355-364 | so another row that was checked still shows "☑" although it is no longer checked |
| Table.TableView.StatusBar | src/ui/table.py:246-287 | over the whole table, the text shows the counts and `LastChange` of the latest stamp; edit is enabled exactly with one checked id; the delete label counts the checked ids |
| Login.LoginWindow.constructor | src/windows/login.py:15-53 | opening reads the stored hash; the user is new exactly when there is no `master_hash` row |
| Login.LoginWindow.CheckMasterPasswordExists | src/windows/login.py:54-62 | the settings table is made if absent; the user is new exactly when there is no `master_hash` row |
| Login.LoginWindow.Buttons | src/windows/login.py:105-115 | the reset button is offered exactly for an existing user at an ordinary login; the confirm text follows the mode |
| Login.LoginWindow.CheckPassword | src/windows/login.py:134-157 | an empty entry does nothing; a new user stores hash(pwd) and succeeds; an existing user succeeds exactly when the hashes agree, and otherwise the entry is cleared |
| Login.LoginWindow.ForgotPass | src/windows/login.py:159-167 | once confirmed, only `master_hash` is deleted, records stay, and the user is new again |
| Login.FirstRunThenLogin | src/windows/login.py:134-157 | a first run stores the hash; the same password then logs in, and a different hash is refused |
| Session.LockMinutes | src/app.py:107 | a missing `auto_lock_min` reads as 0 |
| Session.DisabledNeverLocks | src/app.py:107-112 | with 0 minutes the app never locks |
| Session.LockThreshold | src/app.py:108-111 | the threshold is inclusive: exactly m idle minutes lock, and one second fewer does not |
| Session.LockStaysDue | src/app.py:105-113 | once due, the lock stays due until activity resets the timer |
| Session.VerifyMasterPassword | src/app.py:138-157 | `confirm_copy` off needs nothing; the gate opens exactly with the gate off, no stored hash, or a matching hash; an empty answer cancels |
| Session.RightPasswordOpens | src/app.py:148-153 | the right password always opens the gate |
| Session.BackupDue | src/app.py:378-395 | "Никогда" is never due |
| Session.BackupDueCases | src/app.py:378-395 | due exactly when the schedule is not "Никогда" and: there is no last date, or it does not parse, or daily with 1 day passed, or weekly with 7 |
| Session.WeeklyImpliesDaily | src/app.py:389-393 | a due weekly backup would also be due daily |
| Session.EditTarget | src/app.py:259-273 | edit opens exactly with one checked id, or none checked and a selected row; more than one checked warns |
| Session.DeleteTargets | src/app.py:280-289 | the checked ids, else the selected row, else nothing |
| Session.App.constructor | src/app.py:37-99 | the activity time starts at `now` and nothing is checked; with a truthy `require_login` the window stays withdrawn behind the login window, otherwise it is shown at once |
| Session.App.StartApp | src/app.py:133-136 | the main window is shown |
| Session.App.LoginSucceeded | src/windows/login.py:146-154 | a right password closes the login window and shows the main window |
| Session.StartupLoginNeverLocks | src/app.py:115-118 | while the startup login waits, the inactivity lock opens no lock screen, and the login then shows the window |
| Session.App.ResetInactivityTimer | src/app.py:101-103 | the activity time becomes `now` |
| Session.App.LockApp | src/app.py:115-126 | a withdrawn window is left alone; otherwise it is withdrawn, the dialogs closed, and the lock screen opened |
| Session.App.CheckInactivity | src/app.py:105-113 | locks exactly when `ShouldLock`: a shown window gets the lock screen, a withdrawn one is left as it is; otherwise nothing changes |
| Session.App.UnlockApp | src/app.py:128-131 | the activity time becomes `now` and the window is shown |
| Session.App.UpdateLastUsed | src/app.py:171-178 | stamps `last_used_at` of the row when the column exists, and changes nothing else |
| Session.App.DeletePassword | src/app.py:275-297 | without a yes nothing is deleted; otherwise exactly `DeleteTargets` go, and the checked set is emptied; when nothing is deleted the checked set is kept |
| Session.App.CheckBackupSchedule | src/app.py:376-409 | copies exactly when due and the copy works; then `last_backup` becomes the date of the same clock reading, and the settings are written unless the save fails |
| Session.ActivityPostponesLock | src/app.py:101-112 | activity at `now` means no lock at `now` |
| Session.LockTwice | src/app.py:115-118 | locking twice is locking once |
| Session.DecryptSentinel | src/app.py:164-169 | an unreadable token shows "Ошибка"; a token the cipher made shows its plaintext |
| SettingsWindow.SpinInitial | src/windows/settings.py:78-79 | the spinbox starts at the stored minutes when positive, else 5 |
| SettingsWindow.FontLabel | src/windows/settings.py:92-95 | "%" is appended exactly when absent |
| SettingsWindow.FontLabelIdempotent | src/windows/settings.py:92-95 | applying the rule twice is applying it once |
| SettingsWindow.PathShown | src/windows/settings.py:172-173 | an empty path shows the placeholder, and any other path itself |
| SettingsWindow.AutoLockValue | src/windows/settings.py:312-319 | 0 when unchecked, the parsed minutes when checked, and 5 when parsing fails |
| SettingsWindow.ReopenKeepsAutoLock | src/windows/settings.py:72-79 | saving an untouched form keeps a positive threshold and turns any other into 0 |
| SettingsWindow.GarbageSpinSavesFive | src/windows/settings.py:313-317 | a spinbox that is not a number saves 5 |
| SettingsWindow.BackupPathValue | src/windows/settings.py:331-335 | the placeholder saves "", and any other text saves itself |
| SettingsWindow.PathRoundTrip | src/windows/settings.py:331-335 | showing a stored path and saving it gives it back |
| SettingsWindow.FromFormSaved | src/windows/settings.py:308-335 | the saved dictionary is the loaded one with exactly the edited keys replaced |
| SettingsWindow.SaveKeepsOtherKeys | src/windows/settings.py:308 | keys the form does not edit (such as `last_backup`) pass through unchanged |
| SettingsWindow.SpinMinutes | src/windows/settings.py:312-319 | the `try` around `int()` computes `AutoLockValue` |
| SettingsWindow.PathToSave | src/windows/settings.py:331-335 | the branch computes `BackupPathValue` |
| SettingsWindow.FillFromForm | src/windows/settings.py:308-335 | the key-by-key fill computes `FromForm` |
| SettingsWindow.Window.constructor | src/windows/settings.py:36 | the window holds the settings loaded from the file |
| SettingsWindow.Window.SaveSettings | src/windows/settings.py:306-338 | the file afterwards holds `FromForm` of the loaded settings |
| SettingsWindow.Window.MakeBackupAsWritten | src/windows/settings.py:238-257 | as written, today's date is saved from a copy, and the window's settings keep the old date |
| SettingsWindow.Window.MakeBackup | src/windows/settings.py:238-257 | corrected: the window's settings and the file both take today's date |
| SettingsWindow.Window.ChangeMasterPassword | src/windows/settings.py:259-304 | the hash changes only on the full happy path, and then to hash(new); an empty, unknown or wrong current password, or an empty or mismatched new password, changes nothing |
| SettingsWindow.BackupThenSaveAsWritten | src/windows/settings.py:253-255 | as written, a backup then Save writes the old `last_backup` back |
| SettingsWindow.BackupThenSave | src/windows/settings.py:306-338 | with the corrected backup, the later Save keeps today's date |
| SettingsWindow.ChangeThenLogin | src/windows/settings.py:299-302 | after a change, the stored hash is hash(new) |
| Generator.CharRange | src/windows/generator.py:125-129 | a run of n consecutive characters has length n |
| Generator.CharRangeMembers | src/windows/generator.py:125-129 | a character is in the run exactly when it lies in its code range |
| Generator.EnabledMembers | src/windows/generator.py:123-131 | a character is offered exactly when its group (upper, lower, digit or "!@#$%^&*") is on |
| Generator.RemoveAll | src/windows/generator.py:133-135 | the removals never lengthen the set |
| Generator.RemoveAllMembers | src/windows/generator.py:133-135 | exactly the characters not in "il1\|o0O" survive |
| Generator.Charset | src/windows/generator.py:123-138 | the final set is never empty |
| Generator.CharsetMembers | src/windows/generator.py:123-138 | unless it is the fallback, the set holds exactly the enabled characters that were not excluded |
| Generator.CharsetAvoidsSimilar | src/windows/generator.py:133-135 | with exclusion on, none of "il1\|o0O" remain |
| Generator.NothingEnabled | src/windows/generator.py:137-138 | with every group off the set is "abc" |
| Generator.SliderLength | src/windows/generator.py:93 | the length lies in 4..64, and a position inside the range is kept |
| Generator.Drawn | src/windows/generator.py:141 | the password has exactly the requested length, and every character is from the set |
| Generator.EveryPasswordReachable | src/windows/generator.py:141 | every password of that length over the set is drawn by some sequence of choices |
| Generator.GeneratorWindow.constructor | src/windows/generator.py:29-39 | a new window shows a 16-character password from the default set |
| Generator.GeneratorWindow.Generate | src/windows/generator.py:120-146 | the display shows `Drawn(Charset(o), length, draw)` |
| Generator.GeneratorWindow.ApplyPassword | src/windows/generator.py:153-160 | the target's whole text becomes the displayed password, shown in clear |
| Generator.BuildCharset | src/windows/generator.py:123-138 | the `+=` and `replace` steps compute `Charset` |
| Generator.EnabledGroups | src/windows/generator.py:123-131 | the four `+=` compute the enabled groups in order |
| Generator.RemoveEach | src/windows/generator.py:133-135 | the `replace` loop computes `RemoveAll` |
| Generator.AppendIf | src/windows/generator.py:124-131 | a group is appended exactly when its box is on |
| Generator.DrawPassword | src/windows/generator.py:141 | the drawing loop computes `Drawn` |
| Generator.GenerateAndApply | src/windows/generator.py:120-160 | the entry ends up with exactly the slider's length of characters from the set |
| Details.OtherRows | src/windows/details.py:126-131 | at most one row per column |
| Details.OtherRowsAppend | src/windows/details.py:126-131 | the rows follow the column order |
| Details.OtherRowsComplete | src/windows/details.py:126-131 | every listed column (not excluded, not None, not "") gets its row |
| Details.OtherRowsSound | src/windows/details.py:126-131 | every row comes from a listed column |
| Details.PasswordRowAlways | src/windows/details.py:117-123 | the masked, large password row always comes right after the username and email rows that exist |
| Details.EmailShownTwice | src/windows/details.py:110-131 | `email` is not excluded, so a record with an email shows it twice |
| Details.LabelOfEmail | src/windows/details.py:129 | the label of `email` is "Email" |
| Details.LabelOfSnakeCase | src/windows/details.py:129 | underscores become spaces, and a letter is upper case exactly when it starts a word |
| Details.MaskedRows | src/windows/details.py:113-131 | the masked rows are exactly the password row and the rows of the six encrypted columns; they show "••••••••", and the others their value |
| Details.Revealed | src/windows/details.py:206-215 | a text token shows its decryption; anything else shows "Ошибка" |
| Details.RevealShowsPlaintext | src/windows/details.py:206-213 | a value this program encrypted is revealed as its plaintext |
| Details.ToggleText | src/windows/details.py:206-218 | as written, an entry starting with "•••" shows the plaintext, and any other text the mask |
| Details.ToggleTextTwice | src/windows/details.py:206-218 | as written, two presses re-mask exactly when the plaintext does not start with "•••" (or is the mask) |
| Details.ToggleTextStuck | src/windows/details.py:206-218 | as written, the password "•••abc" can never be masked again |
| Details.ToggleTwice | src/windows/details.py:206-218 | with a revealed flag, one press shows the plaintext and two restore the mask |
| Details.ToggleAgrees | src/windows/details.py:206-218 | the flag version agrees with the code on plaintexts that do not start with "•••" |
| Details.ClipboardText | src/windows/details.py:227-237 | a secure row copies its decryption, and any other row its value |
| Details.WindowHeight | src/windows/details.py:47-50 | the height is `min(content + 150, 700)` |
| Details.HeaderEndsWithName | src/windows/details.py:76-78 | the header ends with the name, with "★ " in front exactly for a favourite |
| Details.Header | src/windows/details.py:76-78 | without a name the header is "Без названия", with "★ " in front for a favourite; a favourite's header always starts with "★ " |
| Details.DetailModal.constructor | src/windows/details.py:13-40 | opening stamps `last_used_at`, reads the row and lays out `DetailRows` of it |
| Details.DetailModal.AddGridRow | src/windows/details.py:165-246 | one row more, showing `Shown` in its colour, not revealed; `current_row` advances by 2 |
| Details.DetailModal.CreateUi | src/windows/details.py:108-141 | the rows laid out are `DetailRows`: top rows, other columns, dates |
| Details.DetailModal.AddListedRows | src/windows/details.py:126-131 | the loop adds the rows of the listed columns, in the table's column order |
| Details.DetailModal.AddIfListed | src/windows/details.py:126-131 | one pass of the loop adds the column's row exactly when it is listed |
| Details.DetailModal.AddTopRows | src/windows/details.py:117-123 | username and email when truthy, then the password row |
| Details.DetailModal.AddDateRows | src/windows/details.py:134-141 | creation and change dates when truthy, without fractions, in grey |
| Details.DetailModal.ToggleViewAsWritten | src/windows/details.py:206-218 | as written: the entry's text decides; a text starting with "•••" becomes the decryption in red, any other the mask in black; no other row changes |
| Details.DetailModal.ToggleView | src/windows/details.py:206-218 | corrected toggle: the row's flag decides; a revealed value is red and a masked one black; no other row changes |
| Details.DetailModal.CopyAction | src/windows/details.py:227-238 | a refused gate copies nothing and writes nothing; otherwise it copies `ClipboardText`, the row's `last_used_at` becomes `now` when the row and column exist, and no other cell changes |

## Left out

- Widgets, layout, fonts, icons, scrolling, tooltips, the clipboard and the
  Tk event loop are left out: they are presentation. `get_font`,
  `about.py`, the menu, header, toolbar and filter bar, `resources.py` and
  the clipboard helpers are not part of this model.
- SHA-256 and Fernet are parameters. Nonce freshness and token formats are
  not modelled.
- SQL text is left out:
  - the model's search is a plain substring test, while `LIKE` also treats
    `%` and `_` in the search as wildcards;
  - SQLite's order for each sort clause is the parameter `order` of
    `Table.TableView.Reload`, and only the "latest stamp" order is written
    out;
  - type affinity is reduced to `Null`, `Int` and `Text`.
- Time is whole seconds, and `strptime` as well as the date-of-birth
  calendar check are parameters. `%d` and `%m` also accepting single
  digits is therefore not modelled.
- `random.choice` is the parameter `draw`.
- File I/O (config.json, encryption.key, backup copies, CSV import and
  export) is an abstract store. Success or failure of a copy is a
  parameter.
- JSON values other than booleans, integers and strings are one `Other`
  case. What is written is taken to read back unchanged.
- Unicode is reduced:
  - whitespace (`Text.IsSpace`) is the ASCII set that Python's `strip()`,
    `split()` and `int()` skip: space, tab, line feed, vertical tab, form
    feed, carriage return and U+001C to U+001F. The other Unicode spaces
    Python also skips, such as U+0085, U+00A0 and U+2003, count as ordinary
    characters in `Text.Strip`, `Text.FirstToken`, `Text.ParseInt` and
    `Colors.ParseHex`;
  - the model reads only the ASCII digits 0 to 9 as digits, and its
    `int()` takes no underscores. This is a reduction of Python:
    - `isdigit` also accepts other Unicode digits, such as "٣" and "²";
    - `int()` also accepts Unicode decimal digits, and single underscores
      between digits.

    The consequence: a spinbox holding "1_0" saves 10 in the program but 5
    in `SettingsWindow.AutoLockValue`. For `int(s, 16)` on a two-character
    slice, underscores cannot arise, since an underscore needs a digit on
    each side. Unicode decimal digits still differ there;
  - Python's `lower()` covers ASCII letters and the Russian alphabet
    (А to Я and Ё); capitals of other scripts are left as they are;
  - `title()` covers ASCII letters.
- Floating point is replaced by exact arithmetic:
  - `darken` uses an exact rational factor with truncation, so float
    rounding at boundaries is not modelled;
  - the generator's slider is an integer;
  - `total_seconds() / 60` is the truncating division of whole seconds.
- Tkinter's rendering of a None or number cell is reduced to `Cell`.
- Session.App.constructor: the settings arrive as a parameter instead of from `load_config`. Since `Config.Loaded` always holds every default key, the constructor requires `require_login` rather than modelling the `KeyError` a missing key would raise. The backup check, the first inactivity tick and the table build that `__init__` also runs are the separate members `CheckBackupSchedule`, `CheckInactivity` and `Table.TableView.Reload`.
- Session.App.CheckInactivity: the ten-second rescheduling by
  `root.after` is not modelled. A comparison that raises on a non-number
  `auto_lock_min` (LockMinutes None) is taken as no lock, and the model
  does not capture that the exception also stops the rescheduling.
- EditForm.StatementShape: distinctness of the column list is proved from
  a requirement, rather than computed on the 45 literal names, whose
  pairwise inequality is too costly to check.
- Details.DetailModal.constructor: the source raises for an id without a
  row, while the model requires the row to exist.
- `check_outside_click`, `edit_entry` and `delete_entry` of the detail view
  are left out, and so is `copy_to_clipboard` of the generator: they only
  open other windows or touch the clipboard.
- Database.Db.Insert: the NOT NULL constraints on `name` and `type`
  (src/database.py:23-24) are not modelled. The form's save always binds
  `type` (src/windows/add_edit.py:625) and stops on an empty name before
  it inserts (src/windows/add_edit.py:555), so no insert it issues breaks
  them.
- The colour feedback of `validate_field_color`, and the date and phone
  formatting on key release, are left out: they are display only.

## Findings

| source | as written | input that shows it | evidently intended | confidence | as-written member | corrected member |
|---|---|---|---|---|---|---|
| src/ui/table.py:174-176 | the term is lowered by Python, but the column by SQLite's `lower()`, which folds ASCII only | searching "Сбер" for a record named "Сбербанк" finds nothing | a case-insensitive search for Cyrillic text too | not executed | Table.SelectMissesCyrillicCapital | Table.FoldHitFindsTyped |
| src/windows/add_edit.py:511-522 | `refresh_fields` resets `custom_fields_count` to 2 before the `> 2` test, so the loop never runs | editing a CUSTOM record with `custom_field_5` filled shows only fields 1 and 2 | the form shows custom inputs up to the last filled one | not executed | EditForm.Form.FillDataAsWritten | EditForm.Form.FillData |
| src/ui/table.py:232-237 | select-all compares only the size of the checked set with the number of shown rows | checked {1, 3}, shown rows [1, 2]: the press clears everything although row 2 was unchecked | clear only when every shown row is checked | not executed | Table.ToggleAllAsWrittenClearsUnchecked | Table.ToggleAllChecksUnchecked |
| src/windows/settings.py:253-255 | the manual backup saves today's `last_backup` from a copy, and the window keeps the old settings | Backup, then Save in the same window, writes the old date back | the backup date survives a later save | not executed | SettingsWindow.BackupThenSaveAsWritten | SettingsWindow.BackupThenSave |
| src/windows/details.py:206-218 | the eye button decides by whether the entry's text starts with "•••" | a password "•••abc" is revealed and then can never be masked again | the button alternates between hidden and shown | not executed | Details.ToggleTextStuck | Details.ToggleTwice |
