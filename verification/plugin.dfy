/**
 * The plugin object's own state: the shared settings, this device's local
 * settings and the MAC address that keys them, loading and saving them, and
 * the cached vault path.
 *
 * Reading the data file, choosing the MAC address among the interfaces of the
 * machine and asking the vault adapter for its base path are outside the
 * model: they are parameters.
 */
module Plugin {
  import opened Wrappers
  import opened Config
  import Text
  import Search

  datatype PluginState = PluginState(settings: Settings, local: LocalSettings, mac: string)

  /** This device's entry in the shared record, or no keys at all when there is none. */
  function DeviceEntry(s: Settings, mac: string): StoredLocal {
    if mac in s.localSettings then s.localSettings[mac] else EmptyLocal
  }

  /** `loadSettings`: the data file (None when there is none) read over the
      defaults; the MAC address chosen from the addresses already registered;
      this device's entry read over the local defaults. */
  function LoadSettings(loaded: Option<StoredSettings>, macOf: set<string> -> string): (st: PluginState)
    ensures forall key ::
              Get(st.settings, key)
              == (if loaded.Some? && StoredGet(loaded.value, key).Some? then StoredGet(loaded.value, key)
                  else Get(DefaultSettings, key))
    ensures st.mac == macOf(st.settings.localSettings.Keys)
    ensures forall key ::
              GetLocal(st.local, key)
              == (if StoredGetLocal(DeviceEntry(st.settings, st.mac), key).Some?
                  then StoredGetLocal(DeviceEntry(st.settings, st.mac), key)
                  else GetLocal(DefaultLocal, key))
  {
    var settings := Overlay(DefaultSettings, loaded.GetOr(EmptyStored));
    var mac := macOf(settings.localSettings.Keys);
    PluginState(settings, OverlayLocal(DefaultLocal, DeviceEntry(settings, mac)), mac)
  }

  /** The in-memory state after `saveSettings` and the record handed to the
      data file (None when nothing is written). */
  datatype SaveOutcome = SaveOutcome(state: PluginState, written: Option<Settings>)

  /** `saveSettings`: without a MAC address nothing happens; otherwise this
      device's entry becomes the current local settings, every other key and
      every other device's entry is kept, and the whole record is written. */
  function SaveSettings(st: PluginState): (r: SaveOutcome)
    ensures st.mac == "" ==> r.state == st && r.written == None
    ensures st.mac != "" ==>
              && r.written == Some(r.state.settings)
              && r.state.local == st.local && r.state.mac == st.mac
              && (forall key :: key != "localSettings" ==> Get(r.state.settings, key) == Get(st.settings, key))
              && r.state.settings.localSettings.Keys == st.settings.localSettings.Keys + {st.mac}
              && DeviceEntry(r.state.settings, st.mac) == StoreLocal(st.local)
              && (forall m :: m != st.mac ==> DeviceEntry(r.state.settings, m) == DeviceEntry(st.settings, m))
  {
    if st.mac == "" then SaveOutcome(st, None)
    else
      var settings := st.settings.(localSettings := st.settings.localSettings[st.mac := StoreLocal(st.local)]);
      SaveOutcome(st.(settings := settings), Some(settings))
  }

  /** Saving and then loading what was written, on a device that picks the
      same MAC address again, restores the saved state. */
  lemma SaveThenLoad(st: PluginState, macOf: set<string> -> string)
    requires st.mac != ""
    requires macOf(st.settings.localSettings.Keys + {st.mac}) == st.mac
    ensures var r := SaveSettings(st);
            LoadSettings(Some(Store(r.written.value)), macOf) == r.state
  {
    var r := SaveSettings(st);
    OverlayStored(DefaultSettings, r.state.settings, DefaultLocal, st.local);
  }

  /** A first start (no data file) yields the defaults everywhere. */
  lemma FirstStart(macOf: set<string> -> string)
    ensures LoadSettings(None, macOf).settings == DefaultSettings
    ensures LoadSettings(None, macOf).local == DefaultLocal
  {
    var st := LoadSettings(None, macOf);
    assert st.settings == Overlay(DefaultSettings, EmptyStored);
    assert DeviceEntry(st.settings, st.mac) == EmptyLocal;
  }

  /** The Tab key in the search modal as written: the filter is cycled in
      memory, but the save is only named and never called, so nothing is
      written. */
  function ToggleFilterAsWritten(st: PluginState): (r: SaveOutcome)
    ensures r.state.settings.filterType == Search.ToggleFilter(st.settings.filterType)
    ensures forall key :: key != "filterType" ==> Get(r.state.settings, key) == Get(st.settings, key)
    ensures r.state.local == st.local && r.state.mac == st.mac
    ensures r.written == None
  {
    SaveOutcome(st.(settings := st.settings.(filterType := Search.ToggleFilter(st.settings.filterType))), None)
  }

  /** The Tab key with the save carried out: the cycled filter is written
      whenever a MAC address is known. */
  function ToggleFilterSaved(st: PluginState): (r: SaveOutcome)
    ensures r.state.settings.filterType == Search.ToggleFilter(st.settings.filterType)
    ensures st.mac != "" <==> r.written.Some?
    ensures r.written.Some? ==> r.written.value.filterType == Search.ToggleFilter(st.settings.filterType)
  {
    SaveSettings(ToggleFilterAsWritten(st).state)
  }

  /** After a save, pressing Tab as written and reloading from the data file
      brings back the old filter; with the save carried out the new filter
      is reloaded. */
  lemma ToggleLostOnReload(st: PluginState, macOf: set<string> -> string)
    requires st.mac != "" && 0 <= st.settings.filterType < 3
    requires macOf(st.settings.localSettings.Keys + {st.mac}) == st.mac
    ensures var saved := SaveSettings(st);
            var toggled := ToggleFilterAsWritten(saved.state);
            && toggled.written == None
            && LoadSettings(Some(Store(saved.written.value)), macOf).settings.filterType
               != toggled.state.settings.filterType
            && LoadSettings(Some(Store(ToggleFilterSaved(saved.state).written.value)), macOf).settings.filterType
               == toggled.state.settings.filterType
  {
    var saved := SaveSettings(st);
    SaveThenLoad(st, macOf);
    var fixed := ToggleFilterSaved(saved.state);
    OverlayStored(DefaultSettings, fixed.written.value, DefaultLocal, DefaultLocal);
  }

  /** The answer of `getVaultPath` and the cache it leaves behind. */
  datatype VaultPath = VaultPath(path: string, cache: string)

  /** `getVaultPath`: a non-empty cached path is returned as is; off the
      desktop app the answer is empty and nothing is cached; otherwise the
      adapter's base path, with every `/` replaced by the platform separator,
      is cached and returned. */
  function GetVaultPath(cache: string, isDesktop: bool, basePath: string, nativeSep: char): (r: VaultPath)
    ensures cache != "" ==> r == VaultPath(cache, cache)
    ensures cache == "" && !isDesktop ==> r == VaultPath("", "")
    ensures cache == "" && isDesktop ==>
              && r.path == r.cache && |r.path| == |basePath|
              && forall i :: 0 <= i < |basePath| ==>
                   r.path[i] == (if basePath[i] == '/' then nativeSep else basePath[i])
  {
    if cache != "" then VaultPath(cache, cache)
    else if isDesktop then
      var p := Text.Join(Text.Split(basePath, '/'), nativeSep);
      Text.JoinSplitReplaces(basePath, '/', nativeSep);
      VaultPath(p, p)
    else VaultPath("", "")
  }

  /** Once a non-empty path is cached, later calls return it whatever the
      adapter reports, and on a POSIX system the path is the base path itself. */
  lemma VaultPathStable(isDesktop: bool, basePath: string, isDesktop2: bool, basePath2: string)
    requires isDesktop && basePath != ""
    ensures var first := GetVaultPath("", isDesktop, basePath, '/');
            && first.path == basePath
            && GetVaultPath(first.cache, isDesktop2, basePath2, '/') == first
  {
    var first := GetVaultPath("", isDesktop, basePath, '/');
    assert |first.path| == |basePath|;
    assert forall i :: 0 <= i < |basePath| ==> first.path[i] == basePath[i];
  }
}
