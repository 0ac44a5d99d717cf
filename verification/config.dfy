/** The configuration records the server reads from `.php-diagls.json`
    (internal/config/config.go): the server's name and version, and one
    record per diagnostics provider, keyed by provider id. Reading and
    decoding the file are not modelled; a provider record carries the
    `format` part the formatting code relies on. */
module Config {
  const Name: string := "php-diagls"
  const Version: string := "0.0.1-dev"

  /** The `format` part of a provider record. */
  datatype FormatConfig = FormatConfig(enabled: bool, timeoutSeconds: int)

  datatype ProviderConfig = ProviderConfig(
    enabled: bool,
    container: string,
    path: string,
    configFile: string,
    format: FormatConfig)

  /** The configured providers in the order a Go `map` range visits them:
      ids are distinct, the order is arbitrary. */
  type Entry = (string, ProviderConfig)

  predicate DistinctIds(entries: seq<Entry>) {
    forall i, j :: 0 <= i < j < |entries| ==> entries[i].0 != entries[j].0
  }

  /** `entries` visits exactly the entries of `m`, each once. */
  predicate Enumerates(entries: seq<Entry>, m: map<string, ProviderConfig>) {
    && DistinctIds(entries)
    && (forall i :: 0 <= i < |entries| ==> entries[i].0 in m && m[entries[i].0] == entries[i].1)
    && (forall id :: id in m ==> exists i :: 0 <= i < |entries| && entries[i].0 == id)
  }
}
