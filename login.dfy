/** The login and lock screen of src/windows/login.py: a small state machine
    over the `master_hash` row of `app_settings`.  A new user's first
    password is stored as its hash; later logins compare hashes; "forgot
    password" deletes the row and makes the user new again.  The hash is
    the parameter `hash`. */
module Login {
  import opened Wrappers
  import opened Crypto
  import Database

  const MasterKey: string := "master_hash"

  class LoginWindow {
    const db: Database.Db
    /** Opened by the auto-lock rather than at start-up. */
    const isLockScreen: bool
    /** `stored_hash`, read when the window opens and after a reset. */
    var storedHash: Option<string>
    var isNewUser: bool
    /** The password entry's text. */
    var entry: string
    /** `on_success` was called and the window closed. */
    var succeeded: bool

    ghost predicate Valid()
      reads this, db
    {
      db.settings.Some? && (isNewUser <==> storedHash.None?)
    }

    /** Opening the window reads the stored hash. */
    constructor (db: Database.Db, isLockScreen: bool)
      modifies db`settings
      ensures Valid()
      ensures this.db == db && this.isLockScreen == isLockScreen
      ensures entry == "" && !succeeded
      ensures old(db.settings).None? ==> db.settings == Some(map[])
      ensures old(db.settings).Some? ==> db.settings == old(db.settings)
      ensures storedHash == db.GetSetting(MasterKey)
      ensures isNewUser <==> MasterKey !in db.settings.value
    {
      this.db := db;
      this.isLockScreen := isLockScreen;
      entry := "";
      succeeded := false;
      storedHash := None;
      isNewUser := true;
      new;
      CheckMasterPasswordExists();
    }

    /** `check_master_password_exists`: create the settings table if need
        be, then look the hash up; no row means a new user. */
    method CheckMasterPasswordExists()
      modifies this`storedHash, this`isNewUser, db`settings
      ensures Valid()
      ensures old(db.settings).None? ==> db.settings == Some(map[])
      ensures old(db.settings).Some? ==> db.settings == old(db.settings)
      ensures storedHash == db.GetSetting(MasterKey)
      ensures isNewUser <==> MasterKey !in db.settings.value
    {
      db.CreateSettingsTable();
      storedHash := db.GetSetting(MasterKey);
      isNewUser := storedHash.None?;
    }

    /** The confirm button's text and whether the reset button is offered:
        only at an ordinary login of a user who has a password. */
    method Buttons() returns (confirm: string, resetShown: bool)
      ensures resetShown <==> !isNewUser && !isLockScreen
      ensures isNewUser ==> confirm == "Создать базу"
      ensures !isNewUser ==> confirm == if isLockScreen then "Разблокировать" else "Войти"
    {
      confirm := if isNewUser then "Создать базу" else if isLockScreen then "Разблокировать" else "Войти";
      resetShown := !isNewUser && !isLockScreen;
    }

    /** `check_password`: an empty entry does nothing.  A new user's hash is
        inserted and the login succeeds (the insert raises when the row has
        appeared meanwhile, and then nothing more happens).  An existing
        user succeeds iff the hashes agree; otherwise the stored hash stays
        and the entry is emptied. */
    method CheckPassword(hash: HashFn) returns (ok: bool)
      requires Valid()
      modifies db`settings, this`entry, this`succeeded
      ensures Valid()
      ensures succeeded == (old(succeeded) || ok)
      ensures old(entry) == "" ==> !ok && db.settings == old(db.settings) && entry == old(entry)
      ensures old(entry) != "" && isNewUser ==>
        (ok <==> MasterKey !in old(db.settings).value)
        && (ok ==> db.settings == Some(old(db.settings).value[MasterKey := hash(old(entry))]))
        && (!ok ==> db.settings == old(db.settings))
        && entry == old(entry)
      ensures old(entry) != "" && !isNewUser ==>
        db.settings == old(db.settings)
        && (ok <==> hash(old(entry)) == storedHash.value)
        && entry == (if ok then old(entry) else "")
    {
      ok := false;
      var pwd := entry;
      if pwd == "" {
        return;
      }
      var h := hash(pwd);
      if isNewUser {
        ok := db.InsertSetting(MasterKey, h);
      } else if h == storedHash.value {
        ok := true;
      } else {
        entry := "";
      }
      if ok {
        succeeded := true;
      }
    }

    /** `forgot_pass`: once confirmed, only the `master_hash` row is
        deleted; the records (and the key file, which this window never
        touches) stay, the window re-reads the hash and treats the user as
        new, so the reset button disappears. */
    method ForgotPass(confirmed: bool)
      requires Valid()
      modifies db`settings, this`storedHash, this`isNewUser
      ensures Valid()
      ensures db.records == old(db.records) && db.passwords == old(db.passwords)
      ensures confirmed ==> db.settings == Some(old(db.settings).value - {MasterKey})
      ensures confirmed ==> isNewUser && storedHash == None
      ensures !confirmed ==> db.settings == old(db.settings) && isNewUser == old(isNewUser)
                             && storedHash == old(storedHash)
    {
      if confirmed {
        db.DeleteSetting(MasterKey);
        CheckMasterPasswordExists();
      }
    }
  }

  /** A first run stores the password's hash; the next login with the same
      password is accepted, and one whose hash differs is refused. */
  method FirstRunThenLogin(db: Database.Db, hash: HashFn, pwd: string, other: string)
    returns (first: bool, second: bool, wrong: bool)
    requires db.settings == None || db.settings == Some(map[])
    requires pwd != "" && other != "" && hash(other) != hash(pwd)
    modifies db`settings
    ensures first && second && !wrong
    ensures db.settings == Some(map[MasterKey := hash(pwd)])
  {
    var w1 := new LoginWindow(db, false);
    w1.entry := pwd;
    first := w1.CheckPassword(hash);
    var w2 := new LoginWindow(db, true);
    w2.entry := pwd;
    second := w2.CheckPassword(hash);
    var w3 := new LoginWindow(db, false);
    w3.entry := other;
    wrong := w3.CheckPassword(hash);
  }
}
