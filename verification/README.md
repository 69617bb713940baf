# Recoll search for Obsidian — a Dafny model

This project models the logic of the Obsidian plugin that searches a vault with
the recoll desktop search engine, together with its recoll input filter for
Markdown notes. The model covers these parts:

- **Search modal** (`Search`):
  - building the recollq query from the typed text and the filter type;
  - cycling the filter with the Tab key;
  - reading recollq's output into hit records: two header lines, then one line per hit of six base64 fields separated by spaces;
  - what the modal shows when recollq succeeds or fails;
  - turning a chosen hit into a vault-relative path.
- **Base64** (`Base64`): the canonical encoding of section 4 of RFC 4648. Its strict decoder is proved to be the encoder's inverse.
- **Markdown input filter** (`MarkdownFilter`, for `helpers/rclmd.py`):
  - splitting off the YAML front matter;
  - extracting the `tags` list without leading `#`;
  - the HTML envelope with one `<meta name="tags">` line per tag.
- **Settings records** (`Config`, `Plugin`):
  - the shared settings and the per-device settings keyed by MAC address;
  - reading the data file over the defaults, key by key (`Object.assign`);
  - saving this device's entry without touching any other;
  - the cached vault path.
- **Indexer launch** (`Indexer`):
  - whether `recollindex` is started;
  - its environment: `PATH` extended in front, `PYTHONPATH` and `RECOLL_DATADIR` set, everything else inherited;
  - what is logged when it ends.
- **Settings tab** (`SettingsTab`):
  - editing and resetting the path controls, including the `:`-separated directory lists and their validation;
  - the platform-dependent library-path control;
  - the polled status display and the start/stop button;
  - the debug toggle, the date labels and the modifier-key choice.

Everything outside the plugin's own logic is a parameter:
- recollq's run (exit code and streams);
- YAML loading and HTML escaping;
- date formatting;
- file and directory existence;
- the MAC address choice;
- whether the indexer is running.

Where `src/types.ts` and `src/default.ts` disagree on the settings keys, the
model follows `src/default.ts` and the code that reads the settings. The one
exception is the library-path list. `src/default.ts` calls it `ldLibraryPath`,
but `src/settings.ts` reads and writes `libraryPath`. The model has a single
`libraryPath` field with the default `[""]`.

The files:
- `wrappers.dfy`: `Option`, `Result`.
- `text.dfy`: JavaScript `split`/`join`/`trim` and Python `find`/`strip`.
- `base64.dfy`.
- `search.dfy`.
- `markdown_filter.dfy`.
- `config.dfy`.
- `plugin.dfy`.
- `indexer.dfy`.
- `settings_tab.dfy`.

## Model

| member | source | states |
|---|---|---|
| Search.QueryString | src/RecollqSearchModal.ts:134-147 | the markdown filter appends ` mime:text/markdown`, the any-file filter appends ` -mime:inode/directory`, any other code leaves the input as the query |
| Search.SearchCall | src/RecollqSearchModal.ts:129-132 | recollq is not called exactly when the input is all JavaScript whitespace; otherwise its arguments are `-F`, the six field names, `-S relevancyrating` and the query |
| Search.ToggleFilter | src/RecollqSearchModal.ts:161-163 | with JavaScript's `%` the next filter is in 0..2 for every code from -1 up, always differs from a stored filter, and stays in -2..0 below -1 |
| Search.ToggleCycles | src/RecollqSearchModal.ts:163 | Tab goes markdown → any file → any entry → markdown, so three presses return to the start |
| Search.FilterMessage | src/RecollqSearchModal.ts:18-22 | a description exists exactly for the three filter codes: `only md files`, `all files excluding dirs` and `all files and dirs` |
| Search.FolderQuery | src/main.ts:186 | the folder query is `dir:"` + folder + `" `, and the folder can be read back from it |
| Search.FolderSearchRuns | src/main.ts:186-187 | a folder search is never blank, so recollq runs with the folder clause followed by the filter clause (taking the initial query as the modal's search input) |
| Base64.CharOf | src/RecollqSearchModal.ts:103 | every 6-bit value maps to an alphabet character that reads back as the same value |
| Base64.Encode | src/RecollqSearchModal.ts:103 | the encoding has four characters per started group of three bytes, from the alphabet and `=` only, and never a space or a newline |
| Base64.RawDecodeEncode | src/RecollqSearchModal.ts:103 | decoding the canonical encoding of any bytes gives those bytes back |
| Base64.DecodeIsInverse | src/RecollqSearchModal.ts:103 | the strict decoder returns `b` for `s` exactly when `s` is the canonical encoding of `b` |
| Search.DecodeField | src/RecollqSearchModal.ts:103 | a field that is the encoding of some bytes decodes to exactly those bytes |
| Search.SplitTags | src/RecollqSearchModal.ts:112 | an empty tags field gives no tags; otherwise no tag holds a comma and joining the tags with commas gives the field back |
| Search.HitOf | src/RecollqSearchModal.ts:105-113 | path and type are the first two fields; the name is the last `/`-free part of the url; the tags are comma-free, join back with commas to the fifth field and are none exactly when that field is empty; relevance is present exactly when there is a sixth field; each date is empty for an empty field and the formatted field otherwise |
| Search.ParseLines | src/RecollqSearchModal.ts:102-115 | when reading succeeds there is one hit per result line, in order, each the hit its own line reads as; a failure names the first line with fewer than five fields, every earlier line reading as a hit |
| Search.ResultLines | src/RecollqSearchModal.ts:101-102 | the result lines are the lines of the trimmed output after the first two, or none |
| Search.SplitTagsUnique | src/RecollqSearchModal.ts:112 | any comma-free tags that join back to the field and are empty exactly when it is are the split tags, so the tags of a hit are determined by the fifth field |
| Search.LineRoundTrip | src/RecollqSearchModal.ts:101-115 | a line of canonically encoded values separated by single spaces reads back as the hit of those values when there are at least five, and as a too-few-fields failure otherwise |
| Search.ResultLinesOfOutput | src/RecollqSearchModal.ts:101-102 | for two newline-free header lines followed by newline-free result lines, where the text neither begins nor ends with whitespace, the result lines are exactly those lines |
| Search.EncodeLinesRead | src/RecollqSearchModal.ts:102-115 | the encoded lines of rows of at least five values each read as the hits of those rows, one per row and in order |
| Search.OutputRoundTrip | src/RecollqSearchModal.ts:101-115 | an output of two header lines followed by one encoded line per row reads as the hits of the rows, in order, when the first header does not begin with whitespace and the last value of the last row is non-empty |
| Search.LineRoundTripFields | src/RecollqSearchModal.ts:105-113 | the hit of such a line has the url as path, its last part as name, the tags split on commas and the given relevance |
| Search.ExecuteRecollq | src/RecollqSearchModal.ts:91-123 | a start failure rejects with its message; a non-zero exit rejects with stderr; exit 0 resolves with the hits exactly when every line reads, and otherwise never settles |
| Search.GetSuggestions | src/RecollqSearchModal.ts:128-159 | blank input shows nothing; a rejected query shows an empty list without column labels; otherwise the hits, with labels exactly when there is one |
| Search.BlankInputIgnoresRun | src/RecollqSearchModal.ts:129-132 | for blank input the result does not depend on recollq at all |
| Search.FailureShowsNothing | src/RecollqSearchModal.ts:154-158 | a failing recollq yields an empty list, never an error |
| Search.ChosenPath | src/RecollqSearchModal.ts:333-338 | as written: when the path after `file://` starts with the vault path, the vault path, one more character and the result rebuild it (an empty result when nothing follows); otherwise the path after `file://` is kept |
| Search.ChosenPathSiblingFolder | src/RecollqSearchModal.ts:333-338 | the path as written maps a hit in the sibling folder `/notes2x` of vault `/notes` to `x/a.md` |
| Search.VaultRelativePath | src/RecollqSearchModal.ts:333-338 | the corrected relative path: vault path, separator and result rebuild the absolute path, or the absolute path is kept when it is not below the vault |
| Search.ChosenPathInsideVault | src/RecollqSearchModal.ts:336-337 | for files inside the vault the written and the corrected paths agree |
| MarkdownFilter.ClosingFence | helpers/rclmd.py:34 | the closing `---` is the first occurrence at index 3 or later, and -1 means there is none |
| MarkdownFilter.ParseMdFile | helpers/rclmd.py:28-40 | without an opening and a closing `---` the note is all body with an empty mapping; otherwise the stripped text between them is loaded (failing on invalid YAML) and the body is the stripped rest |
| MarkdownFilter.StrippedTags | helpers/rclmd.py:42-47 | no `tags` key gives no tags; otherwise one tag per entry, in order, each with its leading `#` characters removed |
| MarkdownFilter.ExtractTags | helpers/rclmd.py:42-47 | as written, an empty front matter (`None`) fails and a mapping gives its stripped tags |
| MarkdownFilter.HtmlText | helpers/rclmd.py:49-87 | invalid YAML and an empty front matter fail; otherwise the envelope of the tags and the emitted body, with mime type `text/html` |
| MarkdownFilter.MetaLinesConcat | helpers/rclmd.py:70-72 | the meta lines of two runs of tags are those of the first run followed by those of the second, one line per tag in order |
| MarkdownFilter.PlainNote | helpers/rclmd.py:77-81 | a note not opening with `---` is indexed whole, escaped, with no tag lines |
| MarkdownFilter.FirstFenceAfterYaml | helpers/rclmd.py:34 | in `"\n" + yaml + "\n---\n" + body` with no `---` in `yaml`, the first `---` follows `yaml` |
| MarkdownFilter.NoteWithFrontMatter | helpers/rclmd.py:49-87 | a note `"---\n" + yaml + "\n---\n" + body` with a non-empty mapping is indexed as its tag lines followed by exactly `body` |
| MarkdownFilter.EmptyFrontMatterFails | helpers/rclmd.py:36-45 | the note `"---\n---\n" + body` makes the filter as written fail |
| MarkdownFilter.ExtractTagsTolerant | helpers/rclmd.py:42-47 | the corrected tags: an empty front matter has no tags |
| MarkdownFilter.HtmlTextTolerant | helpers/rclmd.py:49-87 | the corrected filter fails exactly on invalid YAML, and agrees with the filter as written wherever that one succeeds |
| Config.Overlay | src/main.ts:221 | under every key the loaded value when present, the default otherwise |
| Config.OverlayLocal | src/main.ts:224 | under every per-device key the stored value when present, the default otherwise |
| Config.Store | src/main.ts:229-231 | the record written holds every key with its in-memory value |
| Config.StoreLocal | src/main.ts:229 | the device entry written holds every per-device key with its value |
| Config.OverlayStored | src/main.ts:221-231 | reading back a fully written record over any defaults gives the record |
| Plugin.LoadSettings | src/main.ts:220-225 | the settings are the data file over the defaults key by key; the MAC address is whatever the address choice returns for the set of registered addresses (possibly a new one, as on a first start); the local settings are that device's entry over the local defaults |
| Plugin.SaveSettings | src/main.ts:227-239 | without a MAC address nothing changes and nothing is written; otherwise only this device's entry changes, every other key and device is kept, and the record is written |
| Plugin.SaveThenLoad | src/main.ts:220-231 | loading what was saved, on a device that picks the same MAC address, restores the saved state |
| Plugin.FirstStart | src/default.ts:6-28 | with no data file the settings and the local settings are the defaults |
| Plugin.GetVaultPath | src/main.ts:71-85 | a cached path is returned; off the desktop app the answer is empty and nothing is cached; otherwise the base path with each `/` replaced by the platform separator is cached and returned |
| Plugin.VaultPathStable | src/main.ts:72-83 | once cached, the path never changes, and on POSIX it is the base path itself |
| Plugin.ToggleFilterAsWritten | src/RecollqSearchModal.ts:161-164 | as written, Tab cycles the filter in memory and writes nothing |
| Plugin.ToggleFilterSaved | src/RecollqSearchModal.ts:161-164 | corrected, the cycled filter is written whenever a MAC address is known |
| Plugin.ToggleLostOnReload | src/RecollqSearchModal.ts:164 | after a save, a Tab press as written is lost on reload; with the save carried out it is kept |
| Indexer.IndexerLaunch | src/recoll.ts:23-39 | no launch when no command is configured; otherwise the command runs with `PYTHONPATH` and `RECOLL_DATADIR` set, every other inherited variable kept, and `PATH` split into the extensions followed by the inherited path (`undefined` when there is none) |
| Indexer.PathSearchOrder | src/recoll.ts:30-35 | with colon-free extensions the search path lists exactly the extensions, then the inherited entries; with no extensions it starts with an empty entry |
| Indexer.IndexerLog | src/recoll.ts:40-58 | a launch error alone is logged; stderr is logged exactly when there is no error, stderr is non-empty and debug is on |
| SettingsTab.PlatformLibrary | src/settings.ts:409-426 | macOS uses `DYLD_LIBRARY_PATH`, `librecoll.XYZ.dylib` and `otool -L`; Linux uses `LD_LIBRARY_PATH`, `librecoll.XYZ.lib` and `ldd`; any other platform has no variable |
| SettingsTab.Controls | src/settings.ts:430-491 | every path control is shown, and the library-path control exactly when the platform has a library variable |
| SettingsTab.ListErrors | src/settings.ts:372-383 | every warning names a non-empty directory that does not exist, every such directory is warned about, and there is none exactly when all exist |
| SettingsTab.ListErrorsConcat | src/settings.ts:372-383 | the warnings for a concatenation of pieces are those of the first part followed by those of the second |
| SettingsTab.ListErrorsPieces | src/settings.ts:372-383 | each piece contributes exactly one warning, at its own place in order, when it is a non-empty directory that does not exist, and none otherwise |
| SettingsTab.PathListChange | src/settings.ts:368-394 | a list is stored exactly when every non-empty piece exists; what is stored holds every non-empty piece as often as it occurs and no empty one, none holding `:`; otherwise at least one warning is shown |
| SettingsTab.PathListConcat | src/settings.ts:370-391 | text made of two parts joined by `:` is accepted exactly when both parts are, and then stores the first part's list followed by the second's (so the stored order is the typed order); refused, it shows the first part's warnings followed by the second's |
| Text.Without | src/settings.ts:391 | `filter(p => p !== "")` keeps every other entry as often as it occurs and drops every empty one |
| Text.WithoutConcat | src/settings.ts:391 | filtering a concatenation filters each part and keeps the parts in order |
| SettingsTab.ListTextRoundTrip | src/settings.ts:367-391 | a list of existing colon-free directories, shown joined by `:` and accepted back, is stored unchanged |
| SettingsTab.SinglePathChange | src/settings.ts:139-153 | the warning shows exactly for a non-empty value that does not exist, and then the stored value is kept; otherwise the value (the empty one included) is stored |
| SettingsTab.OpenTab | src/settings.ts:363-367 | the tab opens with no warning and each single-path box holding its stored path; an empty stored list shows an empty box; when no stored list entry holds `:`, each non-empty list shows text that splits back into that list and the whole tab is in sync |
| SettingsTab.Edit | src/settings.ts:139-153 | typing into a control changes that control's text, its stored value and its warning only; a refused value leaves every stored value as it was, an accepted one stores the value (the parsed list for a list control); every unwarned control keeps showing its stored value |
| SettingsTab.Reset | src/settings.ts:156-165 | the corrected reset stores and shows the default in the control's own box, and keeps the tab in sync |
| SettingsTab.ResetAsWritten | src/settings.ts:397-407 | as written, resetting a list stores the default but writes the text into the data-directory box; every other stored value, the data directory included, is kept |
| SettingsTab.ResetAsWrittenLosesSync | src/settings.ts:402-404 | with a data directory configured and no warning shown, the written list reset leaves its box out of sync, while the corrected reset keeps it in sync |
| SettingsTab.ResetAsWrittenSinglePaths | src/settings.ts:156-165 | for single-path controls the written reset is the corrected one |
| SettingsTab.View | src/settings.ts:536-550 | running shows `running`, `Stop`, `Stop recollindex` and locks the paths; stopped shows `not running`, `Start`, `Start recollindex` and unlocks them |
| SettingsTab.UpdateStatus | src/settings.ts:528-555 | a refresh during another one does nothing; otherwise the status is remembered, and the display is redrawn when forced or when the status changed |
| SettingsTab.DisplayFollowsStatus | src/settings.ts:551-558 | once the display is current, after any number of polls it shows the last observed status |
| SettingsTab.FirstRefreshDisplays | src/settings.ts:561 | the forced first refresh makes the display current whatever was seen before |
| SettingsTab.ButtonAction | src/settings.ts:55-69 | the button stops a running indexer, starts a stopped one when configured, and otherwise shows the "cannot start" notice |
| SettingsTab.DebugToggle | src/settings.ts:91-100 | the toggle stores its value, changes no other setting, and restarts the indexer exactly when it was running and everything is configured |
| SettingsTab.NormalizeLabel | src/settings.ts:652 | a label is stored as typed unless it is all whitespace, in which case it is stored empty |
| SettingsTab.NormalizeLabelIdempotent | src/settings.ts:652 | normalizing a stored label again changes nothing |
| SettingsTab.LabelChange | src/settings.ts:647-656 | typing a date label changes only that label, to its normalized text |
| SettingsTab.ChangeAltKey | src/settings.ts:765-771 | only `tab`, `split` and `window` are stored, changing nothing else; any other value is reported and nothing changes |

## Left out

- The indexer supervisor is not part of this model. Its start/stop queue, liveness check and termination (`recoll.isRecollindexRunning`, `recoll.stopRecollIndex`, `recoll.queue`, called from `src/settings.ts`) are not defined in `src/recoll.ts`. Whether the indexer runs is a parameter of the status refresh, and starting or stopping it is an effect named by `ButtonAction`.
- Process spawning and stream capture (recollq's `spawn`, recollindex's `exec`) are operating-system I/O. A recollq run enters as its exit code and captured streams; the indexer as its launch error and stderr.
- When recollq both fails to start and closes, the model takes the one event that settles the promise first. The order of the events is not modelled.
- Timers are event-loop timing: the debounced indexer run and debounced save, and the 200 ms status poll. The poll is modelled as a sequence of refreshes.
- The DOM is UI: CSS classes, element visibility, notices, the HTML joining of warnings with `<br>`, the modal's rendering and keyboard handling, and opening the chosen file.
- Each async settings handler is modelled as one atomic step. Interleavings of those handlers are not modelled.
- These collaborators are parameters:
  - YAML parsing (`yaml.safe_load`), assumed to give `None` or a mapping of string lists;
  - HTML escaping (`rclexecm.htmlescape`);
  - date formatting of recollq's timestamps;
  - file and directory existence after the `${vault_path}` placeholder is substituted;
  - the MAC address choice (`getMACAddress`);
  - the "configured" test (`isConfigured`);
  - Node's treatment of non-canonical base64 text.
- UTF-8 decoding of recollq's fields is not modelled: decoded fields stay byte sequences. The filter's bytes/text conversions are identities on the model's strings.
- These settings keys are not modelled: the `logs` key of the defaults (`src/default.ts:16`), which `Config.Settings` omits, and any unknown key of the data file. Values of the wrong type are not modelled either.
- `Object.assign` copies shallowly, so the in-memory records share objects with the defaults. That aliasing is not modelled.
- A failing `saveData` is only logged, and is not modelled.
- The reset buttons of the date labels and the modifier key show the default in their control, assign it to the setting and save. They are not modelled separately. The date-format controls and their reset buttons sit in a commented-out block (`src/settings.ts:565-639`) and do not exist; `momentjsFormat` and `datetimeFormat` are only carried as settings.
- The debug toggle's reset button (`src/settings.ts:103-111`) only sets the toggle's displayed value. It neither assigns the setting nor saves. Whether that display change fires the toggle's change handler (`DebugToggle`) depends on the UI library, so the button is not modelled.
- `addDebugCommands` (registering palette commands) is not modelled.
- Plugin.LoadSettings: the address choice is a function of the SET of registered addresses, while `Object.keys` (`src/main.ts:222`) hands over an ordered array. A choice that depends on the key order is not modelled.
- SettingsTab.ChangeAltKey: the values `tab`, `split` and `window` (also the default in `DefaultSettings`) are those of `MetaKeyBehavior` (`src/RecollqSearchModal.ts:24-28`). The `AltKeyBehavior` type the settings declare is not part of this model, so the allowed values are inferred from the modal.
- Search.FolderSearchRuns: the folder menu passes `initialQuery` as a third constructor argument (`src/main.ts:187`), but the modal constructor shown (`src/RecollqSearchModal.ts:36`) takes no query. The lemma assumes that the initial query becomes the search input of `getSuggestions`.
- The status button being enabled only after the indexer queue settles is not modelled.

## Findings

| source | as written | input that shows it | evidently intended | confidence | as-written member | corrected member |
|---|---|---|---|---|---|---|
| src/settings.ts:403 | the reset button of the PATH directories puts the default text into the data-directory box | data directory `/usr/share/recoll` configured, then press reset on the PATH directories: the data-directory box turns empty while the directory stays stored, and the PATH box keeps its old text | the PATH directories' own box shows the default | high, not executed | SettingsTab.ResetAsWritten, SettingsTab.ResetAsWrittenLosesSync | SettingsTab.Reset |
| src/settings.ts:486 | the reset button of the library directories puts the default text into the data-directory box | data directory `/usr/share/recoll` configured on Linux, then press reset on the library directories | the library directories' own box shows the default | medium, not executed; read with the default list under `libraryPath` as the model does, since `src/default.ts:25` names it `ldLibraryPath` and with that file the lookup is undefined and the handler throws before writing anything | SettingsTab.ResetAsWritten, SettingsTab.ResetAsWrittenLosesSync | SettingsTab.Reset |
| src/RecollqSearchModal.ts:336-337 | the vault path is stripped whenever the absolute path starts with it, with no check of the separator after it | vault `/notes`, hit `file:///notes2x/a.md`: the chosen path is `x/a.md` | strip only a vault path followed by the separator | medium, not executed | Search.ChosenPath, Search.ChosenPathSiblingFolder | Search.VaultRelativePath |
| helpers/rclmd.py:37-45 | an empty front matter loads as `None`, and `'tags' in None` raises | the note `"---\n---\nbody"` | an empty front matter means no tags | medium, not executed | MarkdownFilter.HtmlText, MarkdownFilter.EmptyFrontMatterFails | MarkdownFilter.HtmlTextTolerant |
| src/RecollqSearchModal.ts:164 | `this.plugin.saveSettings;` names the method without calling it, so the cycled filter is not written | save, press Tab, reload: the old filter comes back | call `saveSettings()` after cycling | medium, not executed | Plugin.ToggleFilterAsWritten, Plugin.ToggleLostOnReload | Plugin.ToggleFilterSaved |
