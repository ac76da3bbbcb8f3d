/** src/config.py: the settings dictionary kept in `config.json`, its
    defaults, and the migration that fills in keys an older file lacks. */
module Config {
  import opened Wrappers

  /** A JSON value as the settings use it; lists, objects, floats and null
      are `Other`. */
  datatype CValue = B(b: bool) | I(i: int) | S(s: string) | Other

  type Settings = map<string, CValue>

  /** What `config.json` holds: no file, a file `json.load` rejects or that
      does not decode to an object, or an object. */
  datatype StoredConfig = NoFile | Corrupt | Json(obj: Settings)

  /** `default_config`. */
  function Defaults(): (r: Settings)
    ensures r.Keys == SetOf(DefaultKeys)
    ensures r["auto_lock_min"] == I(5) && r["backup_path"] == S("") && r["last_backup"] == S("")
  {
    map["require_login" := B(true), "auto_lock_min" := I(5),
        "confirm_copy" := B(false), "show_passwords_table" := B(false),
        "font_size" := S("100%"), "compact_view" := B(false),
        "backup_freq" := S("1 раз в неделю"), "last_backup" := S(""),
        "backup_path" := S(""), "notify_expired" := B(true),
        "notify_weak" := B(true)]
  }

  /** The defaults a fresh install runs with: a login is required, a copy
      is not confirmed, passwords are hidden in the table and expiry is
      reported. */
  lemma DefaultsSafe()
    ensures Defaults()["require_login"] == B(true) && Defaults()["confirm_copy"] == B(false)
    ensures Defaults()["show_passwords_table"] == B(false) && Defaults()["notify_expired"] == B(true)
  {
  }

  /** The keys of `default_config` in the order the merge loop visits them. */
  const DefaultKeys: seq<string> :=
    ["require_login", "auto_lock_min", "confirm_copy", "show_passwords_table", "font_size",
     "compact_view", "backup_freq", "last_backup", "backup_path", "notify_expired", "notify_weak"]

  /** The merge: every key of `c` keeps its value; every default key `c`
      lacks gets the default. */
  function Merge(c: Settings, d: Settings): (r: Settings)
    ensures r.Keys == c.Keys + d.Keys
    ensures forall k :: k in c ==> r[k] == c[k]
    ensures forall k :: k in d && k !in c ==> r[k] == d[k]
  {
    map k | k in c.Keys + d.Keys :: if k in c then c[k] else d[k]
  }

  /** `load_config` as a function of the file. */
  function Loaded(f: StoredConfig): (r: Settings)
    ensures Defaults().Keys <= r.Keys
    ensures f.Json? ==> f.obj.Keys <= r.Keys
    ensures f.Json? ==> forall k :: k in f.obj ==> r[k] == f.obj[k]
    ensures !f.Json? ==> r == Defaults()
  {
    match f
    case Json(c) => Merge(c, Defaults())
    case _ => Defaults()
  }

  /** A file that already has every key loads as itself. */
  lemma LoadedComplete(c: Settings)
    requires Defaults().Keys <= c.Keys
    ensures Loaded(Json(c)) == c
  {
  }

  /** Loading what was loaded and saved gives the same settings: after one
      migration the file is stable. */
  lemma LoadSaveLoad(f: StoredConfig)
    ensures Loaded(Json(Loaded(f))) == Loaded(f)
  {
    LoadedComplete(Loaded(f));
  }

  /** The loop `for k, v in default_config.items(): if k not in c: c[k] = v`. */
  method MergeDefaults(c0: Settings, d: Settings, keys: seq<string>) returns (c: Settings)
    requires d.Keys <= SetOf(keys)
    ensures c == Merge(c0, d)
  {
    c := c0;
    var i := 0;
    while i < |keys|
      invariant 0 <= i <= |keys|
      invariant forall k :: k in c0 ==> k in c && c[k] == c0[k]
      invariant forall k :: k in c && k !in c0 ==> k in d && c[k] == d[k]
      invariant forall j :: 0 <= j < i && keys[j] in d ==> keys[j] in c
    {
      var k := keys[i];
      if k in d && k !in c {
        c := c[k := d[k]];
      }
      i := i + 1;
    }
    assert c.Keys == c0.Keys + d.Keys by {
      forall k | k in d
        ensures k in c
      {
        var j :| 0 <= j < |keys| && keys[j] == k;
      }
    }
  }

  /** `config.json`.  JSON encoding and decoding are taken to be inverse on
      the values the settings hold. */
  class ConfigFile {
    var stored: StoredConfig

    constructor (initial: StoredConfig)
      ensures stored == initial
    {
      stored := initial;
    }

    /** `load_config`. */
    method Load() returns (cfg: Settings)
      ensures cfg == Loaded(stored)
    {
      match stored
      case Json(c) =>
        cfg := MergeDefaults(c, Defaults(), DefaultKeys);
      case _ =>
        cfg := Defaults();
    }

    /** `save_config`: the file is replaced by the dictionary. */
    method Save(cfg: Settings)
      modifies this
      ensures stored == Json(cfg)
    {
      stored := Json(cfg);
    }
  }

  /** Saving a loaded dictionary and loading again returns it unchanged. */
  method SaveThenLoad(f: ConfigFile) returns (first: Settings, second: Settings)
    modifies f
    ensures first == second && f.stored == Json(first)
  {
    first := f.Load();
    f.Save(first);
    second := f.Load();
    LoadSaveLoad(old(f.stored));
  }

  // ---------------------------------------------------------------------
  // Reading settings the way the program does: `config.get(key, fallback)`.

  function GetBool(cfg: Settings, key: string, fallback: bool): bool {
    if key in cfg then Truthy(cfg[key]) else fallback
  }

  /** Python truthiness of a JSON value. */
  function Truthy(v: CValue): bool {
    match v
    case B(b) => b
    case I(i) => i != 0
    case S(s) => s != []
    case Other => true
  }

  function GetString(cfg: Settings, key: string, fallback: string): string {
    if key in cfg && cfg[key].S? then cfg[key].s else fallback
  }

  function GetInt(cfg: Settings, key: string, fallback: int): int {
    if key in cfg && cfg[key].I? then cfg[key].i
    else if key in cfg && cfg[key].B? then (if cfg[key].b then 1 else 0)
    else fallback
  }
}
