/** The server's advertised capabilities and its single custom command
    (internal/server/capabilities.go). */
module Capabilities {
  import opened Text
  import Config

  const CommandPrefix: string := Config.Name
  const CommandSeparator: string := "/"
  const ShowConfig: string := "showConfig"

  /** `getFullLspCommandName(c)`: the command name qualified by the server's
      name. */
  function FullCommandName(command: string): (r: string)
    ensures |r| == |CommandPrefix| + 1 + |command|
    ensures HasPrefix(r, "php-diagls/")
    ensures r[|CommandPrefix| + 1..] == command
  {
    var r := CommandPrefix + CommandSeparator + command;
    assert r[..11] == CommandPrefix + CommandSeparator;
    r
  }

  /** Different commands get different full names. */
  lemma FullCommandNameInjective(a: string, b: string)
    ensures FullCommandName(a) == FullCommandName(b) ==> a == b
  {
  }

  datatype SyncKind = SyncNone | SyncFull | SyncIncremental

  datatype ServerCapabilities = ServerCapabilities(
    change: SyncKind,
    openClose: bool,
    saveIncludeText: bool,
    commands: seq<string>,
    documentFormatting: bool)

  datatype ServerInfo = ServerInfo(name: string, version: string)

  /** `serverCapabilities()`: whole-document sync, open/close and save
      notifications without the text, one command, formatting. */
  function Advertised(): (c: ServerCapabilities)
    ensures c.commands == ["php-diagls/showConfig"]
    ensures c.change == SyncFull && c.openClose && !c.saveIncludeText && c.documentFormatting
  {
    assert FullCommandName(ShowConfig) == "php-diagls/showConfig";
    ServerCapabilities(SyncFull, true, false, [FullCommandName(ShowConfig)], true)
  }

  /** `serverInfo()`: the configured name and version. */
  function Info(): (i: ServerInfo)
    ensures i.name == "php-diagls" && i.version == "0.0.1-dev"
  {
    ServerInfo(Config.Name, Config.Version)
  }
}
