/** The settings window of src/windows/settings.py: how the form shows the
    loaded settings, how `save_settings` turns the form back into the
    dictionary it writes, the manual backup's stamp, and the guarded change
    of the master password. */
module SettingsWindow {
  import opened Wrappers
  import opened Text
  import opened Crypto
  import Config
  import Database

  /** What the backup-path entry shows while no folder is chosen. */
  const PathPlaceholder: string := "По умолчанию (_backup)"

  // ---------------------------------------------------------------------
  // From the settings to the form

  /** The spinbox's first value: the stored minutes when positive, else 5. */
  function SpinInitial(lockMin: int): (r: int)
    ensures r > 0
    ensures lockMin > 0 ==> r == lockMin
    ensures lockMin <= 0 ==> r == 5
  {
    if lockMin > 0 then lockMin else 5
  }

  /** The font combobox's text: `str(font_size)` with "%" appended when it
      has none. */
  function FontLabel(current: string): (r: string)
    ensures '%' in r
    ensures '%' in current ==> r == current
    ensures '%' !in current ==> r == current + "%"
  {
    if '%' in current then current else current + "%"
  }

  lemma FontLabelIdempotent(current: string)
    ensures FontLabel(FontLabel(current)) == FontLabel(current)
  {
  }

  /** `config.get('backup_path', '') or "По умолчанию (_backup)"`. */
  function PathShown(stored: string): (r: string)
    ensures r != ""
    ensures stored != "" ==> r == stored
  {
    if stored != "" then stored else PathPlaceholder
  }

  // ---------------------------------------------------------------------
  // From the form back to the settings

  /** `auto_lock_min` as saved: 0 with the check box off, otherwise
      `int()` of the spinbox text, or 5 when that raises. */
  function AutoLockValue(enabled: bool, spin: string): (r: int)
    ensures !enabled ==> r == 0
    ensures enabled && ParseInt(spin).Some? ==> r == ParseInt(spin).value
    ensures enabled && ParseInt(spin).None? ==> r == 5
  {
    if !enabled then 0
    else match ParseInt(spin)
      case Some(v) => v
      case None => 5
  }

  /** Opening the window and saving it untouched keeps a positive
      threshold and turns any other into 0 (disabled). */
  lemma ReopenKeepsAutoLock(lockMin: int)
    ensures AutoLockValue(lockMin > 0, IntToString(SpinInitial(lockMin))) == if lockMin > 0 then lockMin else 0
  {
    ParseIntRoundTrip(SpinInitial(lockMin));
  }

  /** A spinbox emptied or filled with letters saves the fallback 5. */
  lemma GarbageSpinSavesFive(spin: string)
    requires forall i :: 0 <= i < |spin| ==> !IsDigit(spin[i])
    ensures AutoLockValue(true, spin) == 5
  {
    ParseIntRejects(spin);
  }

  /** `backup_path` as saved: the placeholder means the default folder. */
  function BackupPathValue(shown: string): (r: string)
    ensures shown == PathPlaceholder ==> r == ""
    ensures shown != PathPlaceholder ==> r == shown
  {
    if shown != PathPlaceholder then shown else ""
  }

  /** Showing a stored path and saving it gives it back, unless the folder
      is literally named like the placeholder. */
  lemma PathRoundTrip(stored: string)
    requires stored != PathPlaceholder
    ensures BackupPathValue(PathShown(stored)) == stored
  {
  }

  /** The form's widgets when "Save" is pressed. */
  datatype Form = Form(requireLogin: bool, lockEnabled: bool, spin: string, font: string,
                       notifyExpired: bool, notifyWeak: bool, confirmCopy: bool,
                       showPasswords: bool, backupFreq: string, pathShown: string)

  /** The keys `save_settings` writes. */
  const EditedKeys: set<string> := {"require_login", "auto_lock_min", "font_size", "notify_expired",
                                    "notify_weak", "confirm_copy", "show_passwords_table",
                                    "backup_freq", "backup_path"}

  /** The outcome of `change_master_password`. */
  datatype Change =
    | NoCurrent      // the first dialog was cancelled or left empty
    | Raised         // there is no settings table and the query raised
    | NoMaster       // no password is stored
    | WrongCurrent
    | NoNew          // the second dialog was cancelled or left empty
    | Mismatch       // the confirmation differs (or was cancelled)
    | Changed

  /** The copy `save_settings` builds: every loaded key the form does not
      edit keeps its value, and each edited key takes the form's value. */
  ghost predicate Saved(loaded: Config.Settings, f: Form, conf: Config.Settings) {
    && conf.Keys == loaded.Keys + EditedKeys
    && (forall k :: k in loaded && k !in EditedKeys ==> conf[k] == loaded[k])
    && conf["auto_lock_min"] == Config.I(AutoLockValue(f.lockEnabled, f.spin))
    && conf["backup_path"] == Config.S(BackupPathValue(f.pathShown))
    && conf["require_login"] == Config.B(f.requireLogin) && conf["font_size"] == Config.S(f.font)
    && conf["notify_expired"] == Config.B(f.notifyExpired) && conf["notify_weak"] == Config.B(f.notifyWeak)
    && conf["confirm_copy"] == Config.B(f.confirmCopy)
    && conf["show_passwords_table"] == Config.B(f.showPasswords)
    && conf["backup_freq"] == Config.S(f.backupFreq)
  }

  /** The dictionary `save_settings` writes, as one value. */
  function FromForm(loaded: Config.Settings, f: Form): (conf: Config.Settings) {
    loaded["require_login" := Config.B(f.requireLogin)]
          ["auto_lock_min" := Config.I(AutoLockValue(f.lockEnabled, f.spin))]
          ["font_size" := Config.S(f.font)]
          ["notify_expired" := Config.B(f.notifyExpired)]
          ["notify_weak" := Config.B(f.notifyWeak)]
          ["confirm_copy" := Config.B(f.confirmCopy)]
          ["show_passwords_table" := Config.B(f.showPasswords)]
          ["backup_freq" := Config.S(f.backupFreq)]
          ["backup_path" := Config.S(BackupPathValue(f.pathShown))]
  }

  /** `FromForm` is the copy described by `Saved`. */
  lemma FromFormSaved(loaded: Config.Settings, f: Form)
    ensures Saved(loaded, f, FromForm(loaded, f))
  {
  }

  /** Keys the form does not show, `last_backup` and `compact_view` among
      them, pass through a save unchanged. */
  lemma SaveKeepsOtherKeys(loaded: Config.Settings, f: Form, k: string)
    requires k in loaded && k !in EditedKeys
    ensures k in FromForm(loaded, f) && FromForm(loaded, f)[k] == loaded[k]
  {
    FromFormSaved(loaded, f);
  }

  /** The auto-lock branch of `save_settings`: `int()` inside a `try`,
      with 5 when it raises. */
  method SpinMinutes(enabled: bool, spin: string) returns (minutes: int)
    ensures minutes == AutoLockValue(enabled, spin)
  {
    minutes := 0;
    if enabled {
      match ParseInt(spin)
      case Some(v) =>
        minutes := v;
      case None =>
        minutes := 5;
    }
  }

  /** The backup-path branch of `save_settings`. */
  method PathToSave(shown: string) returns (path: string)
    ensures path == BackupPathValue(shown)
  {
    if shown != PathPlaceholder {
      path := shown;
    } else {
      path := "";
    }
  }

  /** The body of `save_settings` before the write: key by key, with the
      `try` around `int()` of the spinbox. */
  method FillFromForm(loaded: Config.Settings, f: Form) returns (conf: Config.Settings)
    ensures conf == FromForm(loaded, f)
  {
    conf := loaded;
    conf := conf["require_login" := Config.B(f.requireLogin)];
    var minutes := SpinMinutes(f.lockEnabled, f.spin);
    conf := conf["auto_lock_min" := Config.I(minutes)];
    conf := conf["font_size" := Config.S(f.font)];
    conf := conf["notify_expired" := Config.B(f.notifyExpired)];
    conf := conf["notify_weak" := Config.B(f.notifyWeak)];
    conf := conf["confirm_copy" := Config.B(f.confirmCopy)];
    conf := conf["show_passwords_table" := Config.B(f.showPasswords)];
    conf := conf["backup_freq" := Config.S(f.backupFreq)];
    var path := PathToSave(f.pathShown);
    conf := conf["backup_path" := Config.S(path)];
  }

  class Window {
    /** `self.config`, loaded when the window opened. */
    var config: Config.Settings

    constructor (file: Config.ConfigFile)
      ensures config == Config.Loaded(file.stored)
    {
      var loaded := file.Load();
      config := loaded;
    }

    /** `save_settings`: the form written over a copy of the settings
        loaded when the window opened, then saved. */
    method SaveSettings(file: Config.ConfigFile, f: Form) returns (conf: Config.Settings)
      modifies file
      ensures file.stored == Config.Json(conf)
      ensures conf == FromForm(config, f)
    {
      conf := FillFromForm(config, f);
      file.Save(conf);
    }

    /** `make_backup` as written, after the copy (`copyOk`): today's date
        goes into a fresh copy of the loaded settings, which is saved; the
        window's own `config` keeps the old date. */
    method MakeBackupAsWritten(file: Config.ConfigFile, today: string, copyOk: bool)
      modifies file
      ensures copyOk ==> file.stored == Config.Json(config["last_backup" := Config.S(today)])
      ensures !copyOk ==> file.stored == old(file.stored)
    {
      if copyOk {
        var c := config["last_backup" := Config.S(today)];
        file.Save(c);
      }
    }

    /** `make_backup` corrected: the window's loaded settings take the new
        date too, so a later save keeps it. */
    method MakeBackup(file: Config.ConfigFile, today: string, copyOk: bool)
      modifies this`config, file
      ensures copyOk ==> config == old(config)["last_backup" := Config.S(today)]
                         && file.stored == Config.Json(config)
      ensures !copyOk ==> config == old(config) && file.stored == old(file.stored)
    {
      if copyOk {
        config := config["last_backup" := Config.S(today)];
        file.Save(config);
      }
    }

    /** `change_master_password`: the dialogs' answers are `current`,
        `newPass` (each "" when cancelled) and `confirm` (None when
        cancelled).  Only the full happy path writes, and it writes the new
        password's hash. */
    method ChangeMasterPassword(db: Database.Db, hash: HashFn, current: string, newPass: string,
                                confirm: Option<string>) returns (out: Change)
      modifies db`settings
      ensures out == Changed <==>
        current != "" && old(db.GetSetting("master_hash")).Some?
        && hash(current) == old(db.GetSetting("master_hash")).value
        && newPass != "" && confirm == Some(newPass)
      ensures out == Changed ==> old(db.settings).Some?
                                 && db.settings == Some(old(db.settings).value["master_hash" := hash(newPass)])
      ensures out != Changed ==> db.settings == old(db.settings)
      ensures current == "" ==> out == NoCurrent
      ensures (current != "" && old(db.GetSetting("master_hash")).Some?
               && hash(current) != old(db.GetSetting("master_hash")).value) ==> out == WrongCurrent
    {
      if current == "" {
        return NoCurrent;
      }
      if db.settings.None? {
        return Raised;
      }
      var stored := db.GetSetting("master_hash");
      if stored.None? {
        return NoMaster;
      }
      if hash(current) != stored.value {
        return WrongCurrent;
      }
      if newPass == "" {
        return NoNew;
      }
      if confirm != Some(newPass) {
        return Mismatch;
      }
      db.UpdateSetting("master_hash", hash(newPass));
      out := Changed;
    }
  }

  /** In one visit to the window, a manual backup followed by "Save"
      writes the old `last_backup` back: the date of the backup just made
      is lost. */
  method BackupThenSaveAsWritten(file: Config.ConfigFile, today: string, f: Form)
    returns (w: Window, saved: Config.Settings)
    requires "last_backup" in Config.Loaded(file.stored) && Config.Loaded(file.stored)["last_backup"] != Config.S(today)
    modifies file
    ensures file.stored == Config.Json(saved)
    ensures "last_backup" in saved && saved["last_backup"] != Config.S(today)
  {
    w := new Window(file);
    w.MakeBackupAsWritten(file, today, true);
    saved := w.SaveSettings(file, f);
  }

  /** With the corrected backup, the later save keeps the new date. */
  method BackupThenSave(file: Config.ConfigFile, today: string, f: Form)
    returns (w: Window, saved: Config.Settings)
    modifies file
    ensures file.stored == Config.Json(saved)
    ensures "last_backup" in saved && saved["last_backup"] == Config.S(today)
  {
    w := new Window(file);
    w.MakeBackup(file, today, true);
    saved := w.SaveSettings(file, f);
  }

  /** After a successful change the new password passes the check the
      login screen makes, and the old one fails unless it hashes the same. */
  method ChangeThenLogin(db: Database.Db, hash: HashFn, oldPass: string, newPass: string)
    returns (out: Change)
    requires db.settings.Some? && "master_hash" in db.settings.value
    requires db.settings.value["master_hash"] == hash(oldPass) && oldPass != "" && newPass != ""
    modifies db`settings
    ensures out == Changed
    ensures db.GetSetting("master_hash") == Some(hash(newPass))
  {
    var file := new Config.ConfigFile(Config.NoFile);
    var w := new Window(file);
    out := w.ChangeMasterPassword(db, hash, oldPass, newPass, Some(newPass));
  }
}
