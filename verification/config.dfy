/**
 * The plugin's settings records and their defaults: the settings shared by
 * all devices, and the per-device settings (paths on the local machine) kept
 * in the shared record under each device's MAC address.
 *
 * A record read from the data file may lack any key; such a record is a
 * `Stored…` value whose fields are options. Reading a stored record over a
 * default one is JavaScript's `Object.assign({}, defaults, stored)`.
 */
module Config {
  import opened Wrappers

  /** The per-device settings. */
  datatype LocalSettings = LocalSettings(
    pythonPath: string,
    recollDataDir: string,
    recollConfDir: string,
    pathExtensions: seq<string>,
    libraryPath: seq<string>,
    recollindexCmd: string,
    recollqCmd: string)

  /** A per-device entry as stored; a missing key is None. */
  datatype StoredLocal = StoredLocal(
    pythonPath: Option<string>,
    recollDataDir: Option<string>,
    recollConfDir: Option<string>,
    pathExtensions: Option<seq<string>>,
    libraryPath: Option<seq<string>>,
    recollindexCmd: Option<string>,
    recollqCmd: Option<string>)

  /** The settings shared by all devices. `altKeyBehavior` is kept as the
      stored string, since the data file may hold any string there. */
  datatype Settings = Settings(
    debug: bool,
    momentjsFormat: string,
    datetimeFormat: string,
    createdLabel: string,
    modifiedLabel: string,
    filterType: int,
    altKeyBehavior: string,
    debouncingTime: int,
    localSettings: map<string, StoredLocal>,
    compatibility: string)

  /** The shared settings as stored; a missing key is None. */
  datatype StoredSettings = StoredSettings(
    debug: Option<bool>,
    momentjsFormat: Option<string>,
    datetimeFormat: Option<string>,
    createdLabel: Option<string>,
    modifiedLabel: Option<string>,
    filterType: Option<int>,
    altKeyBehavior: Option<string>,
    debouncingTime: Option<int>,
    localSettings: Option<map<string, StoredLocal>>,
    compatibility: Option<string>)

  /** `DEFAULT_LOCAL_SETTINGS`. */
  const DefaultLocal := LocalSettings("", "", "", [""], [""], "", "")

  /** `DEFAULT_SETTINGS` (markdown filter, open in a new tab, one second of
      debouncing, no device entries). */
  const DefaultSettings :=
    Settings(false, "YYYY_MM_DDTHH_mm_ss", "%Y_%m_%dT%H_%M_%S", "created", "modified", 0, "tab", 1000, map[], "1.0")

  /** A data file with no keys at all. */
  const EmptyStored := StoredSettings(None, None, None, None, None, None, None, None, None, None)

  /** An entry with no keys at all (`undefined` for an unknown device). */
  const EmptyLocal := StoredLocal(None, None, None, None, None, None, None)

  /** A settings value as it appears under a key of the data file. */
  datatype Value =
    | Flag(flag: bool)
    | Number(number: int)
    | Str(str: string)
    | StrList(items: seq<string>)
    | DeviceMap(devices: map<string, StoredLocal>)

  /** The value under a key of the shared settings (None for other keys). */
  function Get(s: Settings, key: string): Option<Value> {
    if key == "debug" then Some(Flag(s.debug))
    else if key == "momentjsFormat" then Some(Str(s.momentjsFormat))
    else if key == "datetimeFormat" then Some(Str(s.datetimeFormat))
    else if key == "createdLabel" then Some(Str(s.createdLabel))
    else if key == "modifiedLabel" then Some(Str(s.modifiedLabel))
    else if key == "filterType" then Some(Number(s.filterType))
    else if key == "altKeyBehavior" then Some(Str(s.altKeyBehavior))
    else if key == "debouncingTime" then Some(Number(s.debouncingTime))
    else if key == "localSettings" then Some(DeviceMap(s.localSettings))
    else if key == "compatibility" then Some(Str(s.compatibility))
    else None
  }

  /** The value stored under a key, if that key is present. */
  function StoredGet(s: StoredSettings, key: string): Option<Value> {
    if key == "debug" && s.debug.Some? then Some(Flag(s.debug.value))
    else if key == "momentjsFormat" && s.momentjsFormat.Some? then Some(Str(s.momentjsFormat.value))
    else if key == "datetimeFormat" && s.datetimeFormat.Some? then Some(Str(s.datetimeFormat.value))
    else if key == "createdLabel" && s.createdLabel.Some? then Some(Str(s.createdLabel.value))
    else if key == "modifiedLabel" && s.modifiedLabel.Some? then Some(Str(s.modifiedLabel.value))
    else if key == "filterType" && s.filterType.Some? then Some(Number(s.filterType.value))
    else if key == "altKeyBehavior" && s.altKeyBehavior.Some? then Some(Str(s.altKeyBehavior.value))
    else if key == "debouncingTime" && s.debouncingTime.Some? then Some(Number(s.debouncingTime.value))
    else if key == "localSettings" && s.localSettings.Some? then Some(DeviceMap(s.localSettings.value))
    else if key == "compatibility" && s.compatibility.Some? then Some(Str(s.compatibility.value))
    else None
  }

  /** The value under a key of the per-device settings (None for other keys). */
  function GetLocal(l: LocalSettings, key: string): Option<Value> {
    if key == "pythonPath" then Some(Str(l.pythonPath))
    else if key == "recollDataDir" then Some(Str(l.recollDataDir))
    else if key == "recollConfDir" then Some(Str(l.recollConfDir))
    else if key == "pathExtensions" then Some(StrList(l.pathExtensions))
    else if key == "libraryPath" then Some(StrList(l.libraryPath))
    else if key == "recollindexCmd" then Some(Str(l.recollindexCmd))
    else if key == "recollqCmd" then Some(Str(l.recollqCmd))
    else None
  }

  /** The value stored under a key of a device entry, if present. */
  function StoredGetLocal(s: StoredLocal, key: string): Option<Value> {
    if key == "pythonPath" && s.pythonPath.Some? then Some(Str(s.pythonPath.value))
    else if key == "recollDataDir" && s.recollDataDir.Some? then Some(Str(s.recollDataDir.value))
    else if key == "recollConfDir" && s.recollConfDir.Some? then Some(Str(s.recollConfDir.value))
    else if key == "pathExtensions" && s.pathExtensions.Some? then Some(StrList(s.pathExtensions.value))
    else if key == "libraryPath" && s.libraryPath.Some? then Some(StrList(s.libraryPath.value))
    else if key == "recollindexCmd" && s.recollindexCmd.Some? then Some(Str(s.recollindexCmd.value))
    else if key == "recollqCmd" && s.recollqCmd.Some? then Some(Str(s.recollqCmd.value))
    else None
  }

  /** `Object.assign({}, base, stored)` for shared settings: under every key,
      the stored value when the key is present, the base value otherwise. */
  function Overlay(base: Settings, stored: StoredSettings): (r: Settings)
    ensures forall key ::
              Get(r, key) == (if StoredGet(stored, key).Some? then StoredGet(stored, key) else Get(base, key))
  {
    Settings(
      stored.debug.GetOr(base.debug),
      stored.momentjsFormat.GetOr(base.momentjsFormat),
      stored.datetimeFormat.GetOr(base.datetimeFormat),
      stored.createdLabel.GetOr(base.createdLabel),
      stored.modifiedLabel.GetOr(base.modifiedLabel),
      stored.filterType.GetOr(base.filterType),
      stored.altKeyBehavior.GetOr(base.altKeyBehavior),
      stored.debouncingTime.GetOr(base.debouncingTime),
      stored.localSettings.GetOr(base.localSettings),
      stored.compatibility.GetOr(base.compatibility))
  }

  /** `Object.assign({}, base, stored)` for a device entry. */
  function OverlayLocal(base: LocalSettings, stored: StoredLocal): (r: LocalSettings)
    ensures forall key ::
              GetLocal(r, key)
              == (if StoredGetLocal(stored, key).Some? then StoredGetLocal(stored, key) else GetLocal(base, key))
  {
    LocalSettings(
      stored.pythonPath.GetOr(base.pythonPath),
      stored.recollDataDir.GetOr(base.recollDataDir),
      stored.recollConfDir.GetOr(base.recollConfDir),
      stored.pathExtensions.GetOr(base.pathExtensions),
      stored.libraryPath.GetOr(base.libraryPath),
      stored.recollindexCmd.GetOr(base.recollindexCmd),
      stored.recollqCmd.GetOr(base.recollqCmd))
  }

  /** The stored form of shared settings: every key present with its value. */
  function Store(s: Settings): (r: StoredSettings)
    ensures forall key :: StoredGet(r, key) == Get(s, key)
  {
    StoredSettings(Some(s.debug), Some(s.momentjsFormat), Some(s.datetimeFormat), Some(s.createdLabel),
                   Some(s.modifiedLabel), Some(s.filterType), Some(s.altKeyBehavior), Some(s.debouncingTime),
                   Some(s.localSettings), Some(s.compatibility))
  }

  /** The stored form of a device entry: every key present with its value. */
  function StoreLocal(l: LocalSettings): (r: StoredLocal)
    ensures forall key :: StoredGetLocal(r, key) == GetLocal(l, key)
  {
    StoredLocal(Some(l.pythonPath), Some(l.recollDataDir), Some(l.recollConfDir), Some(l.pathExtensions),
                Some(l.libraryPath), Some(l.recollindexCmd), Some(l.recollqCmd))
  }

  /** Reading back a fully stored record over any base gives the record. */
  lemma OverlayStored(base: Settings, s: Settings, baseLocal: LocalSettings, l: LocalSettings)
    ensures Overlay(base, Store(s)) == s
    ensures OverlayLocal(baseLocal, StoreLocal(l)) == l
  {
  }
}
