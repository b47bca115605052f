/** The source registry: `load_blacklist_sources` in src/list_manager.py, which
  * checks each configured external deny-list and keeps the valid ones. */
module Registry {
  import opened Wrappers
  import opened Yaml

  /** The record types a source may declare. */
  datatype ListKind = Ip | IpCidr | Domain | Email

  /** `type in ['ip', 'ip_cidr', 'domain', 'email']`, read as a kind. */
  function KindOf(v: Value): (k: Option<ListKind>)
    ensures k == Some(Ip) <==> v == Str("ip")
    ensures k == Some(IpCidr) <==> v == Str("ip_cidr")
    ensures k == Some(Domain) <==> v == Str("domain")
    ensures k == Some(Email) <==> v == Str("email")
  {
    match v
    case Str(s) =>
      if s == "ip" then Some(Ip)
      else if s == "ip_cidr" then Some(IpCidr)
      else if s == "domain" then Some(Domain)
      else if s == "email" then Some(Email)
      else None
    case _ => None
  }

  /** A source that passed validation. `enabled` is the value the loader acts on:
    * `True` when the key is absent, the flag when it is a boolean, `False` otherwise. */
  datatype Source = Source(name: string, url: string, kind: ListKind, description: Value, enabled: bool)

  datatype SkipReason = NotAMapping | MissingFields(fields: seq<string>) | BadUrl | NotHttp | BadType

  datatype Checked = Accepted(source: Source) | Skipped(reason: SkipReason)

  const RequiredFields: seq<string> := ["url", "type", "description"]

  /** `url.startswith('http://') or url.startswith('https://')`. */
  predicate IsHttpUrl(url: string) {
    (|url| >= 7 && url[..7] == "http://") || (|url| >= 8 && url[..8] == "https://")
  }

  /** The configuration's `enabled` after the loader's coercion. */
  function SourceEnabled(entries: seq<(string, Value)>): bool {
    match Get(entries, "enabled")
    case None => true
    case Some(Bool(b)) => b
    case Some(_) => false
  }

  /** The checks applied to one `name: config` pair, in the loader's order. */
  function CheckSource(name: string, config: Value): Checked
  {
    match config
    case Mapping(entries) =>
      var missing := Missing(entries, RequiredFields);
      if missing != [] then Skipped(MissingFields(missing))
      else
        (match GetOr(entries, "url", Str(""))
         case Str(url) =>
           if url == [] then Skipped(BadUrl)
           else if !IsHttpUrl(url) then Skipped(NotHttp)
           else
             (match KindOf(GetOr(entries, "type", Str("")))
              case None => Skipped(BadType)
              case Some(kind) =>
                var description := Get(entries, "description").value;
                Accepted(Source(name, url, kind, description, SourceEnabled(entries))))
         case _ => Skipped(BadUrl))
    case _ => Skipped(NotAMapping)
  }

  /** A source is accepted exactly when its configuration is a mapping with all required
    * fields, an `http://` or `https://` URL and a known type. */
  lemma CheckSourceAccepts(name: string, config: Value)
    ensures CheckSource(name, config).Accepted? <==>
      && config.Mapping?
      && (forall f :: f in RequiredFields ==> HasKey(config.entries, f))
      && (exists url :: Get(config.entries, "url") == Some(Str(url)) && IsHttpUrl(url))
      && KindOf(GetOr(config.entries, "type", Str(""))).Some?
  {
    match config
    case Mapping(entries) =>
      var missing := Missing(entries, RequiredFields);
      if missing != [] {
        assert missing[0] in RequiredFields && !HasKey(entries, missing[0]);
      }
    case _ =>
  }

  /** What an accepted source keeps: the configured URL, type and description, under
    * the source's own name, enabled unless the flag is anything but `True`. */
  lemma CheckSourceKeeps(name: string, config: Value)
    ensures var c := CheckSource(name, config);
      c.Accepted? ==>
        && config.Mapping?
        && c.source.name == name
        && IsHttpUrl(c.source.url)
        && Get(config.entries, "url") == Some(Str(c.source.url))
        && KindOf(GetOr(config.entries, "type", Str(""))) == Some(c.source.kind)
        && Get(config.entries, "description") == Some(c.source.description)
        && (c.source.enabled <==> Get(config.entries, "enabled") in {None, Some(Bool(true))})
  {
    if config.Mapping? && Missing(config.entries, RequiredFields) == [] {
      assert HasKey(config.entries, "description") by {
        assert "description" in RequiredFields;
      }
    }
  }

  /** The loop over `sources.items()`: the accepted sources, in registry order. */
  function CheckAll(entries: seq<(string, Value)>): (sources: seq<Source>)
    ensures |sources| <= |entries|
  {
    if entries == [] then []
    else
      var c := CheckSource(entries[0].0, entries[0].1);
      (if c.Accepted? then [c.source] else []) + CheckAll(entries[1..])
  }

  /** A source is kept exactly when some configured pair is accepted as that source. */
  lemma {:induction false} CheckAllMembers(entries: seq<(string, Value)>, s: Source)
    ensures s in CheckAll(entries) <==> exists p :: p in entries && CheckSource(p.0, p.1) == Accepted(s)
  {
    if entries != [] {
      assert entries == [entries[0]] + entries[1..];
      CheckAllMembers(entries[1..], s);
    }
  }

  /** Validation keeps registry order: checking two halves is checking the whole. */
  lemma {:induction false} CheckAllAppend(a: seq<(string, Value)>, b: seq<(string, Value)>)
    ensures CheckAll(a + b) == CheckAll(a) + CheckAll(b)
  {
    if a == [] {
      assert a + b == b;
    } else {
      var c := CheckSource(a[0].0, a[0].1);
      var kept := if c.Accepted? then [c.source] else [];
      assert (a + b)[0] == a[0] && (a + b)[1..] == a[1..] + b;
      assert CheckAll(a + b) == kept + CheckAll(a[1..] + b);
      CheckAllAppend(a[1..], b);
      assert kept + (CheckAll(a[1..]) + CheckAll(b)) == (kept + CheckAll(a[1..])) + CheckAll(b);
    }
  }

  /** `load_blacklist_sources`, from the parsed registry file onwards. `None` stands for
    * a registry that could not be read: no file and no template, or a YAML syntax error. */
  function LoadBlacklistSources(document: Option<Value>): (sources: seq<Source>)
    ensures !(document.Some? && document.value.Mapping?) ==> sources == []
  {
    match document
    case Some(Mapping(entries)) => CheckAll(entries)
    case _ => []
  }

  /** Every loaded source is the validated form of a configured one, under the same name. */
  lemma LoadedSourcesAreConfigured(document: Option<Value>, s: Source)
    requires s in LoadBlacklistSources(document)
    ensures document.Some? && document.value.Mapping?
    ensures exists i :: (0 <= i < |document.value.entries| &&
      document.value.entries[i].0 == s.name &&
      CheckSource(s.name, document.value.entries[i].1) == Accepted(s))
  {
    var entries := document.value.entries;
    CheckAllMembers(entries, s);
    var p :| p in entries && CheckSource(p.0, p.1) == Accepted(s);
    CheckSourceKeeps(p.0, p.1);
    var i :| 0 <= i < |entries| && entries[i] == p;
  }
}
