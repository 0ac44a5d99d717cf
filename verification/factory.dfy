/** Formatting-provider selection (internal/formatting/factory.go). Only
    php-cs-fixer can format; a provider is built for an entry only when the
    provider and its formatting are both enabled. The configuration is a Go
    map, so the loader is given the entries in an arbitrary order; the
    result does not depend on it. */
module Factory {
  import opened Wrappers
  import opened Text
  import opened Config
  import PhpCsFixer

  /** A formatting provider: php-cs-fixer with its configuration. */
  datatype FormattingProvider = FormattingProvider(config: ProviderConfig) {
    function Id(): string {
      PhpCsFixer.ProviderId
    }

    function Name(): string {
      PhpCsFixer.ProviderName
    }
  }

  datatype FactoryError = FormattingNotEnabled(id: string) | NotSupported(id: string)

  function ErrorMessage(e: FactoryError): string {
    match e
    case FormattingNotEnabled(id) => "formatting is not enabled for provider " + id
    case NotSupported(id) => "formatting not supported for provider: " + id
  }

  /** `NewFormattingProvider(id, cfg)`: a provider or an error, never both
      and never neither. */
  function NewFormattingProvider(id: string, cfg: ProviderConfig): (r: Result<FormattingProvider, FactoryError>)
    ensures r.Success? <==> cfg.format.enabled && id == PhpCsFixer.ProviderId
    ensures r.Success? ==> r.value.config == cfg && r.value.Id() == "phpcsfixer" && r.value.Name() == "php-cs-fixer"
    ensures !cfg.format.enabled ==> r == Failure(FormattingNotEnabled(id))
    ensures cfg.format.enabled && id != PhpCsFixer.ProviderId ==> r == Failure(NotSupported(id))
  {
    if !cfg.format.enabled then Failure(FormattingNotEnabled(id))
    else if id == PhpCsFixer.ProviderId then Success(FormattingProvider(cfg))
    else Failure(NotSupported(id))
  }

  /** The error for an unsupported id says so. */
  lemma NotSupportedMessage(id: string)
    ensures Contains(ErrorMessage(NotSupported(id)), "not supported")
  {
    var m := ErrorMessage(NotSupported(id));
    var rest := "not supported" + (" for provider: " + id);
    assert m == "formatting " + rest;
    assert m[11..] == rest;
    assert HasPrefix(rest, "not supported");
  }

  /** The loop of `LoadFormattingProviders`, having collected `acc`. */
  function LoadFrom(acc: seq<FormattingProvider>, entries: seq<Entry>): seq<FormattingProvider>
    decreases |entries|
  {
    if |entries| == 0 then acc
    else
      var (id, cfg) := entries[0];
      if !cfg.enabled || !cfg.format.enabled then LoadFrom(acc, entries[1..])
      else
        match NewFormattingProvider(id, cfg)
        case Failure(_) => LoadFrom(acc, entries[1..])
        case Success(p) => LoadFrom(acc + [p], entries[1..])
  }

  /** `LoadFormattingProviders`, visiting the entries in the given order. */
  function LoadFormattingProviders(entries: seq<Entry>): seq<FormattingProvider> {
    LoadFrom([], entries)
  }

  // ---------------------------------------------------------------------------
  // Properties

  /** The entries a provider is built for. */
  predicate Loads(e: Entry) {
    e.1.enabled && e.1.format.enabled && e.0 == PhpCsFixer.ProviderId
  }

  function CountLoads(entries: seq<Entry>): nat {
    if |entries| == 0 then 0 else (if Loads(entries[0]) then 1 else 0) + CountLoads(entries[1..])
  }

  /** One entry of the walk: it appends its provider exactly when it loads. */
  lemma LoadFromUnfold(acc: seq<FormattingProvider>, entries: seq<Entry>)
    requires |entries| > 0
    ensures LoadFrom(acc, entries)
      == LoadFrom(if Loads(entries[0]) then acc + [FormattingProvider(entries[0].1)] else acc, entries[1..])
  {
  }

  lemma {:induction false} LoadFromCount(acc: seq<FormattingProvider>, entries: seq<Entry>)
    ensures |LoadFrom(acc, entries)| == |acc| + CountLoads(entries)
    ensures LoadFrom(acc, entries)[..|acc|] == acc
    decreases |entries|
  {
    if |entries| > 0 {
      var e := entries[0];
      var acc' := if Loads(e) then acc + [FormattingProvider(e.1)] else acc;
      LoadFromUnfold(acc, entries);
      LoadFromCount(acc', entries[1..]);
      var r := LoadFrom(acc, entries);
      assert r[..|acc'|][..|acc|] == r[..|acc|];
    }
  }

  lemma {:induction false} LoadFromMembers(acc: seq<FormattingProvider>, entries: seq<Entry>)
    ensures |acc| <= |LoadFrom(acc, entries)|
    ensures forall p :: (p in LoadFrom(acc, entries)[|acc|..]
      <==> exists i :: 0 <= i < |entries| && Loads(entries[i]) && p == FormattingProvider(entries[i].1))
    decreases |entries|
  {
    LoadFromCount(acc, entries);
    if |entries| > 0 {
      var e := entries[0];
      var acc' := if Loads(e) then acc + [FormattingProvider(e.1)] else acc;
      LoadFromUnfold(acc, entries);
      LoadFromMembers(acc', entries[1..]);
      LoadFromCount(acc', entries[1..]);
      var r := LoadFrom(acc, entries);
      if Loads(e) {
        assert r[|acc|] == r[..|acc'|][|acc|] == FormattingProvider(e.1);
        assert r[|acc|..] == [FormattingProvider(e.1)] + r[|acc'|..];
      } else {
        assert r[|acc|..] == r[|acc'|..];
      }
      forall p
        ensures p in r[|acc|..] <==> exists i :: 0 <= i < |entries| && Loads(entries[i]) && p == FormattingProvider(entries[i].1)
      {
        if exists i :: 0 <= i < |entries| && Loads(entries[i]) && p == FormattingProvider(entries[i].1) {
          var i :| 0 <= i < |entries| && Loads(entries[i]) && p == FormattingProvider(entries[i].1);
          if i > 0 {
            assert entries[1..][i - 1] == entries[i];
          }
        }
        if p in r[|acc'|..] {
          var i :| 0 <= i < |entries[1..]| && Loads(entries[1..][i]) && p == FormattingProvider(entries[1..][i].1);
          assert entries[i + 1] == entries[1..][i];
        }
      }
    }
  }

  lemma LoadFromShape(acc: seq<FormattingProvider>, entries: seq<Entry>)
    ensures |LoadFrom(acc, entries)| == |acc| + CountLoads(entries)
    ensures LoadFrom(acc, entries)[..|acc|] == acc
    ensures forall p :: (p in LoadFrom(acc, entries)[|acc|..]
      <==> exists i :: 0 <= i < |entries| && Loads(entries[i]) && p == FormattingProvider(entries[i].1))
  {
    LoadFromCount(acc, entries);
    LoadFromMembers(acc, entries);
  }

  /** A provider is loaded for each entry with the provider and its formatting
      enabled and the id `phpcsfixer`, and for no other entry. */
  lemma LoadedProviders(entries: seq<Entry>)
    ensures |LoadFormattingProviders(entries)| == CountLoads(entries)
    ensures forall p :: (p in LoadFormattingProviders(entries)
      <==> exists i :: 0 <= i < |entries| && Loads(entries[i]) && p == FormattingProvider(entries[i].1))
  {
    LoadFromShape([], entries);
    assert LoadFormattingProviders(entries)[0..] == LoadFormattingProviders(entries);
  }

  lemma {:induction false} NoLoadsCount(entries: seq<Entry>)
    requires forall i :: 0 <= i < |entries| ==> !Loads(entries[i])
    ensures CountLoads(entries) == 0
    decreases |entries|
  {
    if |entries| > 0 {
      assert forall i :: 0 <= i < |entries[1..]| ==> entries[1..][i] == entries[i + 1];
      NoLoadsCount(entries[1..]);
    }
  }

  lemma {:induction false} AtMostOneLoads(entries: seq<Entry>)
    requires DistinctIds(entries)
    ensures CountLoads(entries) <= 1
    decreases |entries|
  {
    if |entries| > 0 {
      if Loads(entries[0]) {
        forall i | 0 <= i < |entries[1..]|
          ensures !Loads(entries[1..][i])
        {
          assert entries[1..][i] == entries[i + 1];
        }
        NoLoadsCount(entries[1..]);
      } else {
        AtMostOneLoads(entries[1..]);
      }
    }
  }

  /** The providers loaded from the configuration map `m`, whatever order the
      map is visited in: php-cs-fixer's entry if it and its formatting are
      enabled, else nothing. In particular at most one provider is loaded. */
  lemma LoadOrderIndependent(entries: seq<Entry>, m: map<string, ProviderConfig>)
    requires Enumerates(entries, m)
    ensures LoadFormattingProviders(entries)
      == if PhpCsFixer.ProviderId in m && Loads((PhpCsFixer.ProviderId, m[PhpCsFixer.ProviderId]))
         then [FormattingProvider(m[PhpCsFixer.ProviderId])]
         else []
  {
    var r := LoadFormattingProviders(entries);
    var id := PhpCsFixer.ProviderId;
    LoadedProviders(entries);
    AtMostOneLoads(entries);
    if id in m && Loads((id, m[id])) {
      var i :| 0 <= i < |entries| && entries[i].0 == id;
      assert Loads(entries[i]);
      assert FormattingProvider(entries[i].1) in r;
      assert |r| == 1;
      assert r[0] in r;
      var j :| 0 <= j < |entries| && Loads(entries[j]) && r[0] == FormattingProvider(entries[j].1);
      assert r == [r[0]];
    } else {
      forall j | 0 <= j < |entries|
        ensures !Loads(entries[j])
      {
        if entries[j].0 == id {
          assert m[id] == entries[j].1;
        }
      }
      NoLoadsCount(entries);
    }
  }
}
