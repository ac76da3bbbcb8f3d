/** The controller state of src/app.py that is not widget wiring: the
    inactivity lock, the master-password confirmation gate, the backup
    schedule, the last-used stamp, and the choice of the records that
    editing and deleting act on.  The clock is the parameter `now` in whole
    seconds; dialogs are the answers they return. */
module Session {
  import opened Wrappers
  import opened Text
  import opened Crypto
  import Config
  import Database

  // ---------------------------------------------------------------------
  // Auto-lock

  /** `config.get('auto_lock_min', 0)` as far as `lock_min > 0` can compare
      it: a number (booleans count as 0 and 1), or None where the
      comparison raises (a string, a list, null). */
  function LockMinutes(cfg: Config.Settings): (r: Option<int>)
    ensures "auto_lock_min" !in cfg ==> r == Some(0)
  {
    if "auto_lock_min" !in cfg then Some(0)
    else match cfg["auto_lock_min"]
      case I(i) => Some(i)
      case B(b) => Some(if b then 1 else 0)
      case _ => None
  }

  /** The decision of `check_inactivity`: a positive threshold, and at
      least that many minutes since the last activity.  `elapsed / 60 >=
      lock_min` on whole seconds is `elapsed >= 60 * lock_min`. */
  predicate ShouldLock(cfg: Config.Settings, lastActivity: int, now: int) {
    LockMinutes(cfg).Some? && LockMinutes(cfg).value > 0
    && now - lastActivity >= 60 * LockMinutes(cfg).value
  }

  /** With auto-lock off (0 minutes) the app never locks, however long it
      sits idle. */
  lemma DisabledNeverLocks(cfg: Config.Settings, lastActivity: int, now: int)
    requires "auto_lock_min" in cfg && cfg["auto_lock_min"] == Config.I(0)
    ensures !ShouldLock(cfg, lastActivity, now)
  {
  }

  /** The threshold is inclusive: exactly `m` idle minutes lock, one
      second fewer does not. */
  lemma LockThreshold(cfg: Config.Settings, lastActivity: int, m: int)
    requires "auto_lock_min" in cfg && cfg["auto_lock_min"] == Config.I(m) && m > 0
    ensures ShouldLock(cfg, lastActivity, lastActivity + 60 * m)
    ensures !ShouldLock(cfg, lastActivity, lastActivity + 60 * m - 1)
  {
  }

  /** Idle time only grows: once the lock is due it stays due until
      something resets the activity time. */
  lemma LockStaysDue(cfg: Config.Settings, lastActivity: int, t1: int, t2: int)
    requires ShouldLock(cfg, lastActivity, t1) && t1 <= t2
    ensures ShouldLock(cfg, lastActivity, t2)
  {
  }

  // ---------------------------------------------------------------------
  // Master-password confirmation

  /** How `verify_master_password` ends. */
  datatype Gate =
    | NotRequired    // `confirm_copy` is off
    | NoMasterHash   // no password has been set
    | Cancelled      // the dialog was closed or left empty
    | Accepted
    | Rejected       // wrong password, after the error message
    | Failed         // the settings query raised

  predicate Allows(g: Gate) {
    g == NotRequired || g == NoMasterHash || g == Accepted
  }

  /** `verify_master_password`; `typed` is the dialog's answer, "" when it
      was cancelled. */
  function VerifyMasterPassword(cfg: Config.Settings, settings: Option<map<string, string>>,
                                typed: string, hash: HashFn): (r: Gate)
    ensures !Config.GetBool(cfg, "confirm_copy", false) ==> r == NotRequired
    ensures Allows(r) <==>
      !Config.GetBool(cfg, "confirm_copy", false)
      || (settings.Some? && "master_hash" !in settings.value)
      || (settings.Some? && typed != "" && hash(typed) == settings.value["master_hash"])
    ensures r == Cancelled <==> (Config.GetBool(cfg, "confirm_copy", false) && settings.Some?
                                 && "master_hash" in settings.value && typed == "")
  {
    if !Config.GetBool(cfg, "confirm_copy", false) then NotRequired
    else if settings.None? then Failed
    else if "master_hash" !in settings.value then NoMasterHash
    else if typed == "" then Cancelled
    else if hash(typed) == settings.value["master_hash"] then Accepted
    else Rejected
  }

  /** Asking again with the right password, after any refusal, opens the
      gate. */
  lemma RightPasswordOpens(cfg: Config.Settings, settings: map<string, string>, pwd: string, hash: HashFn)
    requires "master_hash" in settings && settings["master_hash"] == hash(pwd) && pwd != ""
    ensures Allows(VerifyMasterPassword(cfg, Some(settings), pwd, hash))
  {
  }

  // ---------------------------------------------------------------------
  // Backup schedule

  /** `config.get(key, fallback)`. */
  function GetRaw(cfg: Config.Settings, key: string, fallback: Config.CValue): Config.CValue {
    if key in cfg then cfg[key] else fallback
  }

  /** The decision of `check_backup_schedule`.  `parseDate` is
      `strptime(last, '%Y-%m-%d')` in seconds; `.days` of the difference is
      the floor of a division by 86400.  A non-text stamp raises inside the
      `try` and means a backup, like one that does not parse. */
  function BackupDue(cfg: Config.Settings, now: int, parseDate: string -> Option<int>): (r: bool)
    ensures GetRaw(cfg, "backup_freq", Config.S("Никогда")) == Config.S("Никогда") ==> !r
  {
    var freq := GetRaw(cfg, "backup_freq", Config.S("Никогда"));
    var last := GetRaw(cfg, "last_backup", Config.S(""));
    if freq == Config.S("Никогда") then false
    else if !Config.Truthy(last) then true
    else if !last.S? || parseDate(last.s).None? then true
    else
      var days := (now - parseDate(last.s).value) / 86400;
      (freq == Config.S("Каждый день") && days >= 1) || (freq == Config.S("1 раз в неделю") && days >= 7)
  }

  /** The whole decision written without the control flow. */
  lemma BackupDueCases(cfg: Config.Settings, now: int, parseDate: string -> Option<int>)
    ensures var freq := GetRaw(cfg, "backup_freq", Config.S("Никогда"));
            var last := GetRaw(cfg, "last_backup", Config.S(""));
      BackupDue(cfg, now, parseDate) <==>
        freq != Config.S("Никогда")
        && (!Config.Truthy(last) || !last.S? || parseDate(last.s).None?
            || (freq == Config.S("Каждый день") && now - parseDate(last.s).value >= 86400)
            || (freq == Config.S("1 раз в неделю") && now - parseDate(last.s).value >= 7 * 86400))
  {
  }

  /** A weekly schedule is never due sooner than a daily one would be. */
  lemma WeeklyImpliesDaily(cfg: Config.Settings, now: int, parseDate: string -> Option<int>)
    requires GetRaw(cfg, "backup_freq", Config.S("Никогда")) == Config.S("1 раз в неделю")
    requires BackupDue(cfg, now, parseDate)
    ensures BackupDue(cfg["backup_freq" := Config.S("Каждый день")], now, parseDate)
  {
    var daily := cfg["backup_freq" := Config.S("Каждый день")];
    assert GetRaw(daily, "last_backup", Config.S("")) == GetRaw(cfg, "last_backup", Config.S(""));
  }

  // ---------------------------------------------------------------------
  // Which records editing and deleting act on

  /** What `edit_password` does. */
  datatype EditChoice = EditRecord(id: nat) | AskToSelect | OnlyOneAllowed

  /** One checked id is edited; with none checked, the selected row; more
      than one checked is refused with a warning. */
  function EditTarget(checked: set<nat>, selected: Option<nat>): (r: EditChoice)
    ensures r.EditRecord? <==> |checked| == 1 || (checked == {} && selected.Some?)
    ensures r.EditRecord? && |checked| == 1 ==> checked == {r.id}
    ensures r.EditRecord? && checked == {} ==> selected == Some(r.id)
    ensures r == OnlyOneAllowed <==> |checked| > 1
  {
    if |checked| == 1 then
      var id :| id in checked;
      SingletonIs(checked, id);
      EditRecord(id)
    else if |checked| == 0 then
      if selected.Some? then EditRecord(selected.value) else AskToSelect
    else OnlyOneAllowed
  }

  lemma SingletonIs(s: set<nat>, x: nat)
    requires |s| == 1 && x in s
    ensures s == {x}
  {
    if s != {x} {
      var y :| y in s && y != x;
      assert {x, y} <= s;
      assert |{x, y}| == 2;
      SubsetSize({x, y}, s);
    }
  }

  lemma SubsetSize(a: set<nat>, b: set<nat>)
    requires a <= b
    ensures |a| <= |b|
  {
    assert b == a + (b - a);
  }

  /** `ids_to_delete`: the checked ids, or else the selected row. */
  function DeleteTargets(checked: set<nat>, selected: Option<nat>): (r: set<nat>)
    ensures checked != {} ==> r == checked
    ensures checked == {} && selected.Some? ==> r == {selected.value}
    ensures r == {} <==> checked == {} && selected.None?
  {
    if checked != {} then checked
    else if selected.Some? then {selected.value}
    else {}
  }

  class App {
    const db: Database.Db
    /** `last_activity`. */
    var lastActivity: int
    /** The main window is withdrawn (locked). */
    var withdrawn: bool
    /** Open dialogs (Toplevel windows, the lock screen among them). */
    var dialogs: nat
    /** A lock screen is waiting for the password. */
    var lockScreen: bool
    var config: Config.Settings
    /** `ui_table.checked_items`. */
    var checked: set<nat>

    /** `__init__`: the window is withdrawn from the start; with
        `require_login` the login window opens and the window stays
        withdrawn until it succeeds, otherwise `start_app` shows it at
        once. The settings come from `load_config`, which always has the
        key. */
    constructor (db: Database.Db, config: Config.Settings, now: int)
      requires "require_login" in config
      ensures this.db == db && this.config == config
      ensures lastActivity == now && !lockScreen && checked == {}
      ensures withdrawn <==> Config.Truthy(config["require_login"])
      ensures dialogs == if Config.Truthy(config["require_login"]) then 1 else 0
    {
      this.db := db;
      this.config := config;
      lastActivity := now;
      withdrawn := true;
      dialogs := 0;
      lockScreen := false;
      checked := {};
      new;
      if Config.Truthy(config["require_login"]) {
        dialogs := 1;
      } else {
        StartApp();
      }
    }

    /** `start_app`: the main window is shown. The table reload it starts
        is `Table.TableView.Reload`. */
    method StartApp()
      modifies this`withdrawn
      ensures !withdrawn
    {
      withdrawn := false;
    }

    /** A right password in the startup login window: the window destroys
        itself and calls `start_app`. */
    method LoginSucceeded()
      modifies this`withdrawn, this`dialogs
      ensures !withdrawn
      ensures dialogs == if old(dialogs) > 0 then old(dialogs) - 1 else 0
    {
      if dialogs > 0 {
        dialogs := dialogs - 1;
      }
      StartApp();
    }

    /** `reset_inactivity_timer`, bound to every key press and click. */
    method ResetInactivityTimer(now: int)
      modifies this`lastActivity
      ensures lastActivity == now
    {
      lastActivity := now;
    }

    /** `lock_app`: an already withdrawn window is left alone; otherwise
        the window is withdrawn, every dialog closed, and the lock screen
        opened. */
    method LockApp()
      modifies this`withdrawn, this`dialogs, this`lockScreen
      ensures old(withdrawn) ==> withdrawn && dialogs == old(dialogs) && lockScreen == old(lockScreen)
      ensures !old(withdrawn) ==> withdrawn && dialogs == 1 && lockScreen
    {
      if withdrawn {
        return;
      }
      withdrawn := true;
      dialogs := 0;
      lockScreen := true;
      dialogs := dialogs + 1;
    }

    /** `check_inactivity`, one tick of the ten-second timer. */
    method CheckInactivity(now: int) returns (locked: bool)
      modifies this`withdrawn, this`dialogs, this`lockScreen
      ensures locked <==> ShouldLock(config, lastActivity, now)
      ensures locked ==> withdrawn
      ensures locked && old(withdrawn) ==> dialogs == old(dialogs) && lockScreen == old(lockScreen)
      ensures locked && !old(withdrawn) ==> dialogs == 1 && lockScreen
      ensures !locked ==> withdrawn == old(withdrawn) && dialogs == old(dialogs) && lockScreen == old(lockScreen)
    {
      locked := false;
      var lockMin := LockMinutes(config);
      if lockMin.Some? && lockMin.value > 0 {
        if now - lastActivity >= 60 * lockMin.value {
          LockApp();
          locked := true;
        }
      }
    }

    /** `unlock_app`, called by the lock screen once the password is
        right: the idle time starts again from zero. */
    method UnlockApp(now: int)
      modifies this`lastActivity, this`withdrawn, this`dialogs, this`lockScreen
      ensures lastActivity == now && !withdrawn
      ensures !lockScreen && dialogs == (if old(lockScreen) && old(dialogs) > 0 then old(dialogs) - 1 else old(dialogs))
    {
      if lockScreen && dialogs > 0 {
        dialogs := dialogs - 1;
      }
      lockScreen := false;
      lastActivity := now;
      withdrawn := false;
    }

    /** `update_last_used`. */
    method UpdateLastUsed(id: nat, sqlNow: string)
      requires db.Valid()
      modifies db`records
      ensures db.Valid()
      ensures id in old(db.records) && "last_used_at" in old(db.records)[id] ==>
        db.records == old(db.records)[id := old(db.records)[id]["last_used_at" := Database.Text(sqlNow)]]
      ensures !(id in old(db.records) && "last_used_at" in old(db.records)[id]) ==> db.records == old(db.records)
    {
      db.SetLastUsed(id, sqlNow);
    }

    /** `delete_password`: nothing happens without a target or without the
        user's yes; a confirmed delete removes exactly the targets and
        empties the checked set. */
    method DeletePassword(selected: Option<nat>, confirmed: bool) returns (deleted: set<nat>)
      requires db.Valid()
      modifies db`records, this`checked
      ensures db.Valid()
      ensures deleted == (if confirmed then DeleteTargets(old(checked), selected) else {})
      ensures db.records == old(db.records) - deleted
      ensures forall id :: id in deleted ==> id !in db.records
      ensures deleted != {} ==> checked == {}
      ensures deleted == {} ==> checked == old(checked)
    {
      var ids := DeleteTargets(checked, selected);
      deleted := {};
      if ids == {} {
        return;
      }
      if confirmed {
        db.Delete(ids);
        checked := {};
        deleted := ids;
      }
    }

    /** `check_backup_schedule`: when due and the copy succeeds, the date of
        `now` (`dateOf`, the `strftime('%Y-%m-%d')` of that one clock
        reading) is recorded as `last_backup`, and the settings are written
        unless `save_config` raises (`saveOk`), which the `except` swallows.
        `dbExists` and `copyOk` are the outcomes of the file operations. */
    method CheckBackupSchedule(file: Config.ConfigFile, now: int, dateOf: int -> string,
                               parseDate: string -> Option<int>, dbExists: bool, copyOk: bool, saveOk: bool)
      returns (copied: bool)
      modifies this`config, file
      ensures copied <==> BackupDue(old(config), now, parseDate) && dbExists && copyOk
      ensures copied ==> config == old(config)["last_backup" := Config.S(dateOf(now))]
      ensures copied && saveOk ==> file.stored == Config.Json(config)
      ensures !(copied && saveOk) ==> file.stored == old(file.stored)
      ensures !copied ==> config == old(config)
    {
      copied := false;
      if !BackupDue(config, now, parseDate) {
        return;
      }
      if dbExists && copyOk {
        config := config["last_backup" := Config.S(dateOf(now))];
        if saveOk {
          file.Save(config);
        }
        copied := true;
      }
    }
  }

  /** A user who keeps acting never gets locked: resetting the timer at
      `now` makes the lock not due at `now` for a positive threshold. */
  method ActivityPostponesLock(app: App, now: int) returns (locked: bool)
    requires LockMinutes(app.config).Some? && LockMinutes(app.config).value > 0
    modifies app
    ensures !locked && app.withdrawn == old(app.withdrawn)
  {
    app.ResetInactivityTimer(now);
    locked := app.CheckInactivity(now);
  }

  /** While the startup login window waits, the inactivity lock cannot
      open a lock screen: the window is still withdrawn, so `lock_app`
      returns at once. Once the login succeeds the window is shown. */
  method StartupLoginNeverLocks(db: Database.Db, config: Config.Settings, now: int, later: int)
      returns (lockScreenBefore: bool, shownAfter: bool)
    requires "require_login" in config && Config.Truthy(config["require_login"])
    ensures !lockScreenBefore && shownAfter
  {
    var app := new App(db, config, now);
    var _ := app.CheckInactivity(later);
    app.LockApp();
    lockScreenBefore := app.lockScreen;
    app.LoginSucceeded();
    shownAfter := !app.withdrawn;
  }

  /** Locking twice is locking once: the second call changes nothing. */
  method LockTwice(app: App) returns (dialogsAfterFirst: nat, lockScreenAfterFirst: bool)
    modifies app
    ensures app.withdrawn && app.dialogs == dialogsAfterFirst && app.lockScreen == lockScreenAfterFirst
    ensures !old(app.withdrawn) ==> lockScreenAfterFirst && dialogsAfterFirst == 1
  {
    app.LockApp();
    dialogsAfterFirst, lockScreenAfterFirst := app.dialogs, app.lockScreen;
    app.LockApp();
  }

  /** The decrypt sentinel: a token the cipher cannot open shows "Ошибка",
      and a token it made shows its plaintext. */
  lemma DecryptSentinel(c: Scheme, key: Key, token: string, nonce: nat, plain: string)
    requires Sound(c) && c.open(key, token).None?
    ensures DecryptPassword(c, key, token) == DecryptFailure
    ensures DecryptPassword(c, key, EncryptPassword(c, key, nonce, plain)) == plain
  {
    DecryptEncrypt(c, key, nonce, plain);
  }
}
