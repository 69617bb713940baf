/**
 * One launch of the indexer (`runRecollIndex`): whether it runs, the command
 * and the environment it runs in, and what is logged when it ends.
 *
 * The process itself is outside the model; its outcome is the error message
 * (if any) and the text it wrote to stderr.
 */
module Indexer {
  import opened Wrappers
  import opened Config
  import Text

  /** A command and the complete environment it is started with. */
  datatype Launch = Launch(command: string, env: map<string, string>)

  /** The variables the launch sets over the inherited environment. */
  const SetVariables: set<string> := {"PATH", "PYTHONPATH", "RECOLL_DATADIR"}

  /** The inherited search path as a template string renders it: a missing
      `PATH` becomes the text `undefined`. */
  function InheritedPath(inherited: map<string, string>): string {
    if "PATH" in inherited then inherited["PATH"] else "undefined"
  }

  /** The launch for the current local settings: none when no indexer command
      is configured; otherwise the command with the inherited environment,
      where `PYTHONPATH` and `RECOLL_DATADIR` are the configured paths and
      `PATH` is the extension directories, then the inherited search path. */
  function IndexerLaunch(local: LocalSettings, inherited: map<string, string>): (r: Option<Launch>)
    ensures r.None? <==> local.recollindexCmd == ""
    ensures r.Some? ==>
              && r.value.command == local.recollindexCmd
              && r.value.env.Keys == inherited.Keys + SetVariables
              && r.value.env["PYTHONPATH"] == local.pythonPath
              && r.value.env["RECOLL_DATADIR"] == local.recollDataDir
              && Text.Split(r.value.env["PATH"], ':')
                 == Text.Split(Text.Join(local.pathExtensions, ':'), ':') + Text.Split(InheritedPath(inherited), ':')
              && forall k :: k in inherited && k !in SetVariables ==> r.value.env[k] == inherited[k]
  {
    if local.recollindexCmd == "" then None
    else
      var extensions := Text.Join(local.pathExtensions, ':');
      var path := extensions + ":" + InheritedPath(inherited);
      Text.SplitConcat(extensions, ':', InheritedPath(inherited));
      var env := inherited["PATH" := path]["PYTHONPATH" := local.pythonPath]["RECOLL_DATADIR" := local.recollDataDir];
      Some(Launch(local.recollindexCmd, env))
  }

  /** The directories searched first are exactly the configured extensions, in
      order, when none of them holds a `:`; with no extensions at all the
      search path starts with an empty entry. */
  lemma PathSearchOrder(local: LocalSettings, inherited: map<string, string>)
    requires local.recollindexCmd != ""
    requires forall i :: 0 <= i < |local.pathExtensions| ==> ':' !in local.pathExtensions[i]
    ensures var env := IndexerLaunch(local, inherited).value.env;
            && (|local.pathExtensions| >= 1 ==>
                  Text.Split(env["PATH"], ':') == local.pathExtensions + Text.Split(InheritedPath(inherited), ':'))
            && (local.pathExtensions == [] ==>
                  Text.Split(env["PATH"], ':') == [""] + Text.Split(InheritedPath(inherited), ':'))
  {
    if |local.pathExtensions| >= 1 {
      Text.SplitJoin(local.pathExtensions, ':');
    }
  }

  /** A line written to the console. */
  datatype LogLine = ErrorLine(text: string) | InfoLine(text: string)

  /** What the launch's callback logs: a launch error alone, or else the
      indexer's stderr when there is some and debug logging is on. */
  function IndexerLog(launchError: Option<string>, stderr: string, debug: bool): (r: seq<LogLine>)
    ensures |r| <= 1
    ensures launchError.Some? ==> r == [ErrorLine("Error running recollindex:\n" + launchError.value)]
    ensures (|r| == 1 && r[0].InfoLine?) <==> launchError.None? && stderr != "" && debug
    ensures |r| == 1 && r[0].InfoLine? ==> r[0].text == "recollindex stderr:\n" + stderr
  {
    if launchError.Some? then [ErrorLine("Error running recollindex:\n" + launchError.value)]
    else if stderr != "" && debug then [InfoLine("recollindex stderr:\n" + stderr)]
    else []
  }
}
