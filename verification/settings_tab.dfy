/**
 * The settings tab: the text boxes for the recoll engine's paths and what
 * editing or resetting them stores, the `:`-separated directory lists, the
 * platform-dependent library-path control, the periodic refresh of the
 * indexer's status display, the start/stop button and the debug, label and
 * modifier-key settings.
 *
 * Whether a file or directory exists (after the vault-path placeholder is
 * substituted) is a parameter, and so is whether the indexer is running.
 */
module SettingsTab {
  import opened Wrappers
  import opened Config
  import Text

  /** The path controls of the tab, one per local setting. */
  datatype Control =
    | IndexerCmd | QueryCmd | PythonPath | DataDir | ConfDir | PathExtensions | LibraryPath

  /** The two controls holding `:`-separated directory lists. */
  predicate IsList(c: Control) {
    c == PathExtensions || c == LibraryPath
  }

  /** The two controls that must name an existing file rather than a directory. */
  predicate NamesFile(c: Control) {
    c == IndexerCmd || c == QueryCmd
  }

  /** What the machine reports about a path. */
  datatype Disk = Disk(fileExists: string -> bool, dirExists: string -> bool)

  /** The check a single-path control applies to a non-empty value. */
  function Exists(disk: Disk, c: Control, path: string): bool {
    if NamesFile(c) then disk.fileExists(path) else disk.dirExists(path)
  }

  /** The stored value behind a single-path control. */
  function Single(local: LocalSettings, c: Control): string
    requires !IsList(c)
  {
    match c
    case IndexerCmd => local.recollindexCmd
    case QueryCmd => local.recollqCmd
    case PythonPath => local.pythonPath
    case DataDir => local.recollDataDir
    case ConfDir => local.recollConfDir
  }

  /** The stored list behind a list control. */
  function List(local: LocalSettings, c: Control): seq<string>
    requires IsList(c)
  {
    if c == PathExtensions then local.pathExtensions else local.libraryPath
  }

  /** Stores a value behind a single-path control, leaving the rest. */
  function SetSingle(local: LocalSettings, c: Control, v: string): (r: LocalSettings)
    requires !IsList(c)
    ensures Single(r, c) == v
    ensures forall d :: d != c && !IsList(d) ==> Single(r, d) == Single(local, d)
    ensures forall d :: IsList(d) ==> List(r, d) == List(local, d)
  {
    match c
    case IndexerCmd => local.(recollindexCmd := v)
    case QueryCmd => local.(recollqCmd := v)
    case PythonPath => local.(pythonPath := v)
    case DataDir => local.(recollDataDir := v)
    case ConfDir => local.(recollConfDir := v)
  }

  /** Stores a list behind a list control, leaving the rest. */
  function SetList(local: LocalSettings, c: Control, l: seq<string>): (r: LocalSettings)
    requires IsList(c)
    ensures List(r, c) == l
    ensures forall d :: d != c && IsList(d) ==> List(r, d) == List(local, d)
    ensures forall d :: !IsList(d) ==> Single(r, d) == Single(local, d)
  {
    if c == PathExtensions then local.(pathExtensions := l) else local.(libraryPath := l)
  }

  /** The text a control shows for the stored settings (lists joined by `:`). */
  function BoxText(local: LocalSettings, c: Control): string {
    if IsList(c) then Text.Join(List(local, c), ':') else Single(local, c)
  }

  // ---------------------------------------------------------------------
  // The library-path control depends on the platform
  // ---------------------------------------------------------------------

  /** The environment variable for shared libraries, the library's file name
      and the command that locates it, per platform. */
  datatype LibraryHelp = LibraryHelp(keyword: Option<string>, libName: string, finderCommand: Option<string>)

  function PlatformLibrary(platform: string): (r: LibraryHelp)
    ensures r.keyword.Some? <==> platform == "mac" || platform == "linux"
    ensures r.keyword.Some? <==> r.finderCommand.Some?
    ensures platform == "mac" ==> r == LibraryHelp(Some("DYLD_LIBRARY_PATH"), "librecoll.XYZ.dylib", Some("otool -L"))
    ensures platform == "linux" ==> r == LibraryHelp(Some("LD_LIBRARY_PATH"), "librecoll.XYZ.lib", Some("ldd"))
    ensures r.keyword.None? ==> r.libName == "librecoll.XYZ.dll"
  {
    if platform == "mac" then LibraryHelp(Some("DYLD_LIBRARY_PATH"), "librecoll.XYZ.dylib", Some("otool -L"))
    else if platform == "linux" then LibraryHelp(Some("LD_LIBRARY_PATH"), "librecoll.XYZ.lib", Some("ldd"))
    else LibraryHelp(None, "librecoll.XYZ.dll", None)
  }

  /** Every control is one of the seven. */
  lemma ControlCases(c: Control)
    ensures c in {IndexerCmd, QueryCmd, PythonPath, DataDir, ConfDir, PathExtensions, LibraryPath}
  {
    match c
    case IndexerCmd =>
    case QueryCmd =>
    case PythonPath =>
    case DataDir =>
    case ConfDir =>
    case PathExtensions =>
    case LibraryPath =>
  }

  /** The path controls shown: all of them, except the library path where the
      platform has no library-path variable. */
  function Controls(platform: string): (r: set<Control>)
    ensures forall c :: c != LibraryPath ==> c in r
    ensures LibraryPath in r <==> PlatformLibrary(platform).keyword.Some?
  {
    var always := {IndexerCmd, QueryCmd, PythonPath, DataDir, ConfDir, PathExtensions};
    assert forall c :: c != LibraryPath ==> c in always by {
      forall c | c != LibraryPath
        ensures c in always
      {
        ControlCases(c);
      }
    }
    if PlatformLibrary(platform).keyword.Some? then always + {LibraryPath} else always
  }

  // ---------------------------------------------------------------------
  // Editing a control
  // ---------------------------------------------------------------------

  /** The warning for a directory of a list that does not exist. */
  function MissingDirectory(path: string): string {
    "Directory '" + path + "' does not exist."
  }

  /** Every non-empty piece names an existing directory. */
  predicate AllExist(paths: seq<string>, dirExists: string -> bool) {
    forall i :: 0 <= i < |paths| ==> paths[i] == "" || dirExists(paths[i])
  }

  /** One warning per non-empty directory of `paths` that does not exist, in order. */
  function ListErrors(paths: seq<string>, dirExists: string -> bool): (r: seq<string>)
    ensures |r| <= |paths|
    ensures r == [] <==> AllExist(paths, dirExists)
    ensures forall j :: 0 <= j < |r| ==>
              exists i :: 0 <= i < |paths| && paths[i] != "" && !dirExists(paths[i]) && r[j] == MissingDirectory(paths[i])
    ensures forall i :: 0 <= i < |paths| && paths[i] != "" && !dirExists(paths[i]) ==> MissingDirectory(paths[i]) in r
    decreases |paths|
  {
    if |paths| == 0 then []
    else
      var rest := ListErrors(paths[1..], dirExists);
      assert forall i :: 1 <= i < |paths| ==> paths[i] == paths[1..][i - 1];
      if paths[0] != "" && !dirExists(paths[0]) then [MissingDirectory(paths[0])] + rest else rest
  }

  /** The warnings of a concatenation are those of each part, in order. */
  lemma {:induction false} ListErrorsConcat(a: seq<string>, b: seq<string>, dirExists: string -> bool)
    ensures ListErrors(a + b, dirExists) == ListErrors(a, dirExists) + ListErrors(b, dirExists)
    decreases |a|
  {
    if |a| > 0 {
      assert (a + b)[1..] == a[1..] + b;
      ListErrorsConcat(a[1..], b, dirExists);
    } else {
      assert a + b == b;
    }
  }

  /** Each piece contributes its own warning at its own place: one warning
      when it is a non-empty directory that does not exist, none otherwise. */
  lemma {:induction false} ListErrorsPieces(a: seq<string>, p: string, b: seq<string>, dirExists: string -> bool)
    ensures ListErrors(a + [p] + b, dirExists)
            == ListErrors(a, dirExists)
               + (if p != "" && !dirExists(p) then [MissingDirectory(p)] else [])
               + ListErrors(b, dirExists)
  {
    ListErrorsConcat(a + [p], b, dirExists);
    ListErrorsConcat(a, [p], dirExists);
    assert ListErrors([p], dirExists) == (if p != "" && !dirExists(p) then [MissingDirectory(p)] else []) by {
      assert [p][1..] == [];
      assert ListErrors([], dirExists) == [];
    }
  }

  /** The outcome of typing into a list control: the list stored, or the
      warnings shown while the stored list is kept. */
  datatype ListEdit = Accept(list: seq<string>) | Refuse(errors: seq<string>)

  /** Typing `value` into a list control: the text is split on `:`; when a
      non-empty piece names no existing directory the warnings are shown;
      otherwise the non-empty pieces are stored, in order. */
  function PathListChange(value: string, dirExists: string -> bool): (r: ListEdit)
    ensures r.Accept? <==> AllExist(Text.Split(value, ':'), dirExists)
    ensures r.Refuse? ==> |r.errors| >= 1
    ensures r.Accept? ==>
              && "" !in r.list
              && (forall i :: 0 <= i < |r.list| ==> ':' !in r.list[i] && dirExists(r.list[i]))
              && (forall i :: 0 <= i < |r.list| ==> r.list[i] in Text.Split(value, ':'))
              && (forall i :: 0 <= i < |Text.Split(value, ':')| && Text.Split(value, ':')[i] != "" ==>
                    Text.Split(value, ':')[i] in r.list)
              && multiset(r.list) == multiset(Text.Split(value, ':'))["" := 0]
  {
    var paths := Text.Split(value, ':');
    var errors := ListErrors(paths, dirExists);
    if |errors| > 0 then Refuse(errors)
    else
      Accept(Text.Without(paths, ""))
  }

  /** Text typed as two parts joined by `:` is accepted exactly when both
      parts are, and then the stored list is the first part's list followed
      by the second's; the warnings of a refused text are the first part's
      followed by the second's. */
  lemma PathListConcat(a: string, b: string, dirExists: string -> bool)
    ensures var r := PathListChange(a + ":" + b, dirExists);
            var ra, rb := PathListChange(a, dirExists), PathListChange(b, dirExists);
            && (r.Accept? <==> ra.Accept? && rb.Accept?)
            && (r.Accept? ==> r.list == ra.list + rb.list)
            && (r.Refuse? ==> r.errors == ListErrors(Text.Split(a, ':'), dirExists)
                                          + ListErrors(Text.Split(b, ':'), dirExists))
  {
    var pa, pb := Text.Split(a, ':'), Text.Split(b, ':');
    Text.SplitConcat(a, ':', b);
    assert a + ":" + b == a + [':'] + b;
    ListErrorsConcat(pa, pb, dirExists);
    Text.WithoutConcat(pa, pb, "");
  }

  /** A stored list of existing, colon-free directories survives being shown
      in its text box and accepted back unchanged. */
  lemma ListTextRoundTrip(list: seq<string>, dirExists: string -> bool)
    requires forall i :: 0 <= i < |list| ==> list[i] != "" && ':' !in list[i] && dirExists(list[i])
    ensures PathListChange(Text.Join(list, ':'), dirExists) == Accept(list)
  {
    if |list| == 0 {
      assert Text.Split("", ':') == [""];
      assert Text.Without([""], "") == [];
    } else {
      Text.SplitJoin(list, ':');
      Text.WithoutAbsent(list, "");
    }
  }

  /** The outcome of typing into a single-path control. */
  datatype SingleEdit = SingleEdit(stored: string, warning: bool)

  /** Typing `value` into a single-path control: an empty value, or one that
      names an existing file or directory, is stored; anything else shows the
      warning and keeps the stored value. */
  function SinglePathChange(c: Control, stored: string, value: string, disk: Disk): (r: SingleEdit)
    ensures r.warning <==> value != "" && !Exists(disk, c, value)
    ensures r.warning ==> r.stored == stored
    ensures !r.warning ==> r.stored == value
    ensures value == "" ==> r == SingleEdit("", false)
  {
    if value != "" && !Exists(disk, c, value) then SingleEdit(stored, true) else SingleEdit(value, false)
  }

  // ---------------------------------------------------------------------
  // The tab as a whole: stored settings, text boxes and visible warnings
  // ---------------------------------------------------------------------

  datatype Tab = Tab(local: LocalSettings, texts: map<Control, string>, warnings: set<Control>)

  /** The pieces of a list text that name directories. */
  function Entries(text: string): seq<string> {
    Text.Without(Text.Split(text, ':'), "")
  }

  /** A control's text stands for the stored value: the same text for a
      single path; the same non-empty directories, in order, for a list. */
  predicate Shows(local: LocalSettings, c: Control, text: string) {
    if IsList(c) then Entries(text) == Text.Without(List(local, c), "") else text == Single(local, c)
  }

  /** Every control without a visible warning shows what is stored. */
  predicate InSync(t: Tab) {
    forall c :: c in t.texts && c !in t.warnings ==> Shows(t.local, c, t.texts[c])
  }

  /** No stored directory list holds a `:`, as is the case for every list
      the tab stores. */
  predicate ColonFree(local: LocalSettings) {
    forall c, i :: IsList(c) && 0 <= i < |List(local, c)| ==> ':' !in List(local, c)[i]
  }

  /** Opening the tab: each shown control holds the stored text and no
      warning is visible. */
  function OpenTab(local: LocalSettings, platform: string): (r: Tab)
    ensures r.texts.Keys == Controls(platform) && r.warnings == {} && r.local == local
    ensures forall c :: c in r.texts && !IsList(c) ==> r.texts[c] == Single(local, c)
    ensures forall c :: c in r.texts && IsList(c) && List(local, c) == [] ==> r.texts[c] == ""
    ensures forall c :: c in r.texts && IsList(c) && List(local, c) != [] && ColonFree(local) ==>
              Text.Split(r.texts[c], ':') == List(local, c)
    ensures ColonFree(local) ==> InSync(r)
  {
    var r := Tab(local, map c | c in Controls(platform) :: BoxText(local, c), {});
    assert forall c :: c in r.texts && IsList(c) && List(local, c) != [] && ColonFree(local) ==>
             Text.Split(r.texts[c], ':') == List(local, c) by {
      forall c | c in r.texts && IsList(c) && List(local, c) != [] && ColonFree(local)
        ensures Text.Split(r.texts[c], ':') == List(local, c)
      {
        Text.SplitJoin(List(local, c), ':');
      }
    }
    assert ColonFree(local) ==> InSync(r) by {
      if ColonFree(local) {
        forall c | c in r.texts && IsList(c)
          ensures Shows(local, c, r.texts[c])
        {
          ListShowsItself(List(local, c));
        }
      }
    }
    r
  }

  /** A colon-free list joined by `:` shows the list. */
  lemma ListShowsItself(list: seq<string>)
    requires forall i :: 0 <= i < |list| ==> ':' !in list[i]
    ensures Entries(Text.Join(list, ':')) == Text.Without(list, "")
  {
    if |list| == 0 {
      assert Text.Split("", ':') == [""];
    } else {
      Text.SplitJoin(list, ':');
    }
  }

  /** Typing `value` into control `c`. */
  function Edit(t: Tab, c: Control, value: string, disk: Disk): (r: Tab)
    requires c in t.texts
    ensures r.texts == t.texts[c := value]
    ensures c in r.warnings <==> (if IsList(c) then PathListChange(value, disk.dirExists).Refuse?
                                  else value != "" && !Exists(disk, c, value))
    ensures c in r.warnings ==> r.local == t.local
    ensures c !in r.warnings ==> (if IsList(c) then List(r.local, c) == PathListChange(value, disk.dirExists).list
                                  else Single(r.local, c) == value)
    ensures forall d :: d != c ==> (d in r.warnings <==> d in t.warnings)
    ensures forall d :: d != c && IsList(d) ==> List(r.local, d) == List(t.local, d)
    ensures forall d :: d != c && !IsList(d) ==> Single(r.local, d) == Single(t.local, d)
    ensures InSync(t) ==> InSync(r)
  {
    if IsList(c) then
      match PathListChange(value, disk.dirExists)
      case Refuse(_) => Tab(t.local, t.texts[c := value], t.warnings + {c})
      case Accept(list) =>
        Text.WithoutAbsent(list, "");
        Tab(SetList(t.local, c, list), t.texts[c := value], t.warnings - {c})
    else
      var e := SinglePathChange(c, Single(t.local, c), value, disk);
      if e.warning then Tab(t.local, t.texts[c := value], t.warnings + {c})
      else Tab(SetSingle(t.local, c, e.stored), t.texts[c := value], t.warnings - {c})
  }

  /** The default behind a control. */
  function DefaultText(c: Control): string {
    BoxText(DefaultLocal, c)
  }

  /** A control's reset button as written: it stores the default, but the
      two list controls put their text into the data-directory box instead of
      their own. */
  function ResetAsWritten(t: Tab, c: Control): (r: Tab)
    requires c in t.texts && DataDir in t.texts
    ensures IsList(c) ==> List(r.local, c) == List(DefaultLocal, c) && r.texts == t.texts[DataDir := ""]
    ensures !IsList(c) ==> Single(r.local, c) == Single(DefaultLocal, c) && r.texts == t.texts[c := ""]
    ensures r.warnings == t.warnings
    ensures forall d :: d != c && IsList(d) ==> List(r.local, d) == List(t.local, d)
    ensures forall d :: d != c && !IsList(d) ==> Single(r.local, d) == Single(t.local, d)
  {
    if IsList(c) then Tab(SetList(t.local, c, List(DefaultLocal, c)), t.texts[DataDir := DefaultText(c)], t.warnings)
    else Tab(SetSingle(t.local, c, Single(DefaultLocal, c)), t.texts[c := DefaultText(c)], t.warnings)
  }

  /** A control's reset button, corrected: the default is stored and shown in
      the control's own box; nothing else changes. */
  function Reset(t: Tab, c: Control): (r: Tab)
    requires c in t.texts
    ensures r.texts == t.texts[c := DefaultText(c)] && r.warnings == t.warnings
    ensures Shows(r.local, c, r.texts[c])
    ensures forall d :: d != c && IsList(d) ==> List(r.local, d) == List(t.local, d)
    ensures forall d :: d != c && !IsList(d) ==> Single(r.local, d) == Single(t.local, d)
    ensures InSync(t) ==> InSync(r)
  {
    if IsList(c) then
      ListShowsItself(List(DefaultLocal, c));
      Tab(SetList(t.local, c, List(DefaultLocal, c)), t.texts[c := DefaultText(c)], t.warnings)
    else Tab(SetSingle(t.local, c, Single(DefaultLocal, c)), t.texts[c := DefaultText(c)], t.warnings)
  }

  /** On single-path controls the written reset is the corrected one. */
  lemma ResetAsWrittenSinglePaths(t: Tab, c: Control)
    requires c in t.texts && DataDir in t.texts && !IsList(c)
    ensures ResetAsWritten(t, c) == Reset(t, c)
  {
  }

  /** Resetting a directory list as written, while the data-directory box
      shows a non-empty stored directory without a warning, leaves that box
      empty although the directory is still stored. */
  lemma ResetAsWrittenLosesSync(t: Tab, c: Control)
    requires IsList(c) && c in t.texts && DataDir in t.texts
    requires InSync(t) && DataDir !in t.warnings && t.local.recollDataDir != ""
    ensures !InSync(ResetAsWritten(t, c))
    ensures InSync(Reset(t, c))
  {
    var r := ResetAsWritten(t, c);
    assert Text.Join(List(DefaultLocal, c), ':') == "";
    assert r.texts[DataDir] == "";
    assert Single(r.local, DataDir) == t.local.recollDataDir;
    assert !Shows(r.local, DataDir, r.texts[DataDir]);
  }

  // ---------------------------------------------------------------------
  // The status display, refreshed by polling the indexer
  // ---------------------------------------------------------------------

  const Running := "running"
  const NotRunning := "not running"

  /** What the status line shows: the label and its style, the button's text
      and tooltip, and whether the path controls are locked (which also marks
      the paths heading as a warning). */
  datatype StatusView = StatusView(caption: string, success: bool, button: string, tooltip: string, pathsLocked: bool)

  function View(running: bool): (v: StatusView)
    ensures v.pathsLocked == running && v.success == running
    ensures v.caption == (if running then Running else NotRunning)
    ensures running ==> v.button == "Stop" && v.tooltip == "Stop recollindex"
    ensures !running ==> v.button == "Start" && v.tooltip == "Start recollindex"
  {
    if running then StatusView(Running, true, "Stop", "Stop recollindex", true)
    else StatusView(NotRunning, false, "Start", "Start recollindex", false)
  }

  /** The polling state: a refresh in progress, the last status seen, and
      what the status line shows (None before the first refresh). */
  datatype Poll = Poll(busy: bool, previous: bool, shown: Option<StatusView>)

  /** One call of `updateStatus`: skipped while another is in progress;
      otherwise the display is redrawn when forced or when the status has
      changed, and the status is remembered either way. */
  function UpdateStatus(p: Poll, force: bool, running: bool): (r: Poll)
    ensures p.busy ==> r == p
    ensures !p.busy ==> !r.busy && r.previous == running
    ensures !p.busy && (force || running != p.previous) ==> r.shown == Some(View(running))
    ensures !p.busy && !force && running == p.previous ==> r.shown == p.shown
  {
    if p.busy then p
    else if force || running != p.previous then Poll(false, running, Some(View(running)))
    else Poll(false, running, p.shown)
  }

  /** The display shows the status last seen. */
  predicate Displayed(p: Poll) {
    p.shown == Some(View(p.previous))
  }

  /** The polls after the tab opens: the forced first refresh, then one
      unforced refresh per observation, in order. */
  function Polls(p: Poll, observations: seq<bool>): Poll
    decreases |observations|
  {
    if |observations| == 0 then p
    else Polls(UpdateStatus(p, false, observations[0]), observations[1..])
  }

  /** After the forced first refresh, the display always shows the status
      last observed. */
  lemma {:induction false} DisplayFollowsStatus(p: Poll, observations: seq<bool>)
    requires Displayed(p) && !p.busy
    ensures Displayed(Polls(p, observations)) && !Polls(p, observations).busy
    ensures |observations| > 0 ==> Polls(p, observations).previous == observations[|observations| - 1]
    decreases |observations|
  {
    if |observations| > 0 {
      var q := UpdateStatus(p, false, observations[0]);
      DisplayFollowsStatus(q, observations[1..]);
      if |observations| > 1 {
        assert observations[1..][|observations[1..]| - 1] == observations[|observations| - 1];
      }
    }
  }

  /** Opening the tab: whatever was seen when it was built, the forced first
      refresh shows the current status. */
  lemma FirstRefreshDisplays(seen: bool, running: bool, observations: seq<bool>)
    ensures Displayed(UpdateStatus(Poll(false, seen, None), true, running))
    ensures Displayed(Polls(UpdateStatus(Poll(false, seen, None), true, running), observations))
  {
    DisplayFollowsStatus(UpdateStatus(Poll(false, seen, None), true, running), observations);
  }

  // ---------------------------------------------------------------------
  // The start/stop button and the debug toggle
  // ---------------------------------------------------------------------

  datatype ButtonEffect = StopIndexer | StartIndexer | Notice(message: string)

  /** The status button: stops a running indexer, starts a stopped one when
      every path is configured, and otherwise explains why it cannot start. */
  function ButtonAction(previous: bool, configured: bool): (r: ButtonEffect)
    ensures r == StopIndexer <==> previous
    ensures r == StartIndexer <==> !previous && configured
    ensures r.Notice? ==> r.message == "recollindex cannot start until all paths are configured"
  {
    if previous then StopIndexer
    else if configured then StartIndexer
    else Notice("recollindex cannot start until all paths are configured")
  }

  /** The settings after the debug toggle, and whether the indexer is restarted. */
  datatype DebugOutcome = DebugOutcome(settings: Settings, restart: bool)

  /** The debug toggle stores the new value, and restarts the indexer when it
      was running and every path is configured. */
  function DebugToggle(s: Settings, value: bool, previous: bool, configured: bool): (r: DebugOutcome)
    ensures r.settings == s.(debug := value)
    ensures r.restart <==> previous && configured
  {
    DebugOutcome(s.(debug := value), previous && configured)
  }

  // ---------------------------------------------------------------------
  // Date labels and the modifier key
  // ---------------------------------------------------------------------

  /** A date label as stored: blank text becomes the empty label (use the
      file's own dates); anything else is kept as typed. */
  function NormalizeLabel(value: string): (r: string)
    ensures r == "" || r == value
    ensures r == "" <==> forall i :: 0 <= i < |value| ==> value[i] in Text.JsWhitespace
  {
    if Text.JsTrim(value) == "" then "" else value
  }

  /** Normalizing a stored label changes nothing. */
  lemma NormalizeLabelIdempotent(value: string)
    ensures NormalizeLabel(NormalizeLabel(value)) == NormalizeLabel(value)
  {
  }

  /** Typing into the creation (`created` true) or modification date label. */
  function LabelChange(s: Settings, created: bool, value: string): (r: Settings)
    ensures created ==> r == s.(createdLabel := r.createdLabel)
    ensures !created ==> r == s.(modifiedLabel := r.modifiedLabel)
    ensures r.createdLabel == (if created then "" else s.createdLabel) || r.createdLabel == value
    ensures r.modifiedLabel == (if created then s.modifiedLabel else "") || r.modifiedLabel == value
    ensures (if created then r.createdLabel else r.modifiedLabel) == ""
            <==> forall i :: 0 <= i < |value| ==> value[i] in Text.JsWhitespace
  {
    if created then s.(createdLabel := NormalizeLabel(value)) else s.(modifiedLabel := NormalizeLabel(value))
  }

  /** The modifier-key behaviours the dropdown offers. */
  const AltKeyBehaviors: set<string> := {"tab", "split", "window"}

  /** Choosing a modifier-key behaviour: a known one is stored; any other
      value is reported and nothing changes. */
  function ChangeAltKey(s: Settings, value: string): (r: Result<Settings, string>)
    ensures r.Success? <==> value in AltKeyBehaviors
    ensures r.Success? ==> r.value == s.(altKeyBehavior := value)
    ensures r.Failure? ==> r.error == value
  {
    if value in AltKeyBehaviors then Success(s.(altKeyBehavior := value)) else Failure(value)
  }
}
