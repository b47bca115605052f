/** `ListManager`: the five list sets, the source metadata and the files it reads and
  * writes, changed in place by the loaders. */
module Manager {
  import opened Wrappers
  import opened Text
  import opened Entries
  import opened Registry
  import Gate
  import opened Cache
  import opened Lists

  /** The loop shared by `_load_local_whitelist` and `_load_local_blacklist`: what the
    * entries add to the e-mail and domain sets, and the `invalid_count`. */
  method CollectLocal(list: LocalList, entries: seq<string>) returns (emails: set<string>, domains: set<string>, invalid: nat)
    ensures emails == EmailsOf(list, entries)
    ensures domains == DomainsOf(list, entries)
    ensures invalid == RejectedCount(list, entries)
  {
    emails, domains, invalid := {}, {}, 0;
    var k := 0;
    while k < |entries|
      invariant 0 <= k <= |entries|
      invariant emails == EmailsOf(list, entries[..k])
      invariant domains == DomainsOf(list, entries[..k])
      invariant invalid == RejectedCount(list, entries[..k])
    {
      var entry := entries[k];
      assert entries[..k + 1][..k] == entries[..k] && entries[..k + 1][k] == entry;
      match Classify(list, entry) {
        case EmailEntry(address) => emails := emails + {address};
        case DomainEntry(domain) => domains := domains + {domain};
        case Invalid(_) => invalid := invalid + 1;
        case Ignored =>
      }
      k := k + 1;
    }
    assert entries[..k] == entries;
  }

  /** The network addresses of a cache file's CIDR entries, gathered in file order. */
  function CidrBases(entries: seq<string>): (bases: set<string>)
  {
    if entries == [] then {}
    else CidrBases(entries[..|entries| - 1]) + {CidrBase(entries[|entries| - 1])}
  }

  /** Gathering in file order collects exactly the entries' network addresses. */
  lemma {:induction false} CidrBasesAll(entries: seq<string>)
    ensures CidrBases(entries) == set e | e in entries :: CidrBase(e)
  {
    if entries != [] {
      var init := entries[..|entries| - 1];
      CidrBasesAll(init);
      assert entries == init + [entries[|entries| - 1]];
    }
  }

  class ListManager {
    var whitelistEmails: set<string>
    var whitelistDomains: set<string>
    var blacklistEmails: set<string>
    var blacklistDomains: set<string>
    var blacklistIps: set<string>
    /** The contents of `metadata.json`. */
    var metadata: Metadata
    /** The cache directory: the lines of `{name}.txt` per source name. */
    var cacheFiles: map<string, seq<string>>
    /** `whitelist.txt` and `blacklist.txt`, when they exist. */
    var whitelistFile: Option<seq<string>>
    var blacklistFile: Option<seq<string>>
    /** `update_interval`, in seconds. */
    const updateInterval: int

    /** The five sets, as the queries see them. */
    function Snapshot(): Gate.AggregatedLists
      reads this
    {
      Gate.AggregatedLists(whitelistEmails, whitelistDomains, blacklistEmails, blacklistDomains, blacklistIps)
    }

    /** Everything the external loader changes. */
    function State(): Store
      reads this
    {
      Store(Snapshot(), metadata, cacheFiles)
    }

    /** `__init__`: empty sets and the metadata read by `_load_metadata` (an empty map
      * when the file is missing or unreadable); the interval defaults to a day. */
    constructor(storedMetadata: Option<Metadata>, cache: map<string, seq<string>>,
                whitelist: Option<seq<string>>, blacklist: Option<seq<string>>,
                updateIntervalHours: int := DefaultIntervalHours)
      ensures Snapshot() == Gate.NoLists
      ensures metadata == storedMetadata.GetOr(map[]) && cacheFiles == cache
      ensures whitelistFile == whitelist && blacklistFile == blacklist
      ensures updateInterval == IntervalSeconds(updateIntervalHours)
    {
      whitelistEmails, whitelistDomains := {}, {};
      blacklistEmails, blacklistDomains, blacklistIps := {}, {}, {};
      metadata := storedMetadata.GetOr(map[]);
      cacheFiles := cache;
      whitelistFile, blacklistFile := whitelist, blacklist;
      updateInterval := IntervalSeconds(updateIntervalHours);
    }

    /** `_load_local_whitelist`: a missing file is created from the template and adds nothing. */
    method LoadLocalWhitelist() returns (invalid: nat)
      modifies this
      ensures Snapshot() == LocalLoad(old(Snapshot()), LocalWhitelist, old(whitelistFile))
      ensures old(whitelistFile).None? ==> whitelistFile == Some(Template(LocalWhitelist)) && invalid == 0
      ensures old(whitelistFile).Some? ==>
        whitelistFile == old(whitelistFile) && invalid == RejectedCount(LocalWhitelist, ParseListFile(old(whitelistFile).value))
      ensures metadata == old(metadata) && cacheFiles == old(cacheFiles) && blacklistFile == old(blacklistFile)
    {
      match whitelistFile
      case None =>
        whitelistFile := Some(Template(LocalWhitelist));
        invalid := 0;
      case Some(lines) =>
        var emails, domains;
        emails, domains, invalid := CollectLocal(LocalWhitelist, ParseListFile(lines));
        whitelistEmails := whitelistEmails + emails;
        whitelistDomains := whitelistDomains + domains;
    }

    /** `_load_local_blacklist`: as the whitelist loader, without the leading-`@` rule. */
    method LoadLocalBlacklist() returns (invalid: nat)
      modifies this
      ensures Snapshot() == LocalLoad(old(Snapshot()), LocalBlacklist, old(blacklistFile))
      ensures old(blacklistFile).None? ==> blacklistFile == Some(Template(LocalBlacklist)) && invalid == 0
      ensures old(blacklistFile).Some? ==>
        blacklistFile == old(blacklistFile) && invalid == RejectedCount(LocalBlacklist, ParseListFile(old(blacklistFile).value))
      ensures metadata == old(metadata) && cacheFiles == old(cacheFiles) && whitelistFile == old(whitelistFile)
    {
      match blacklistFile
      case None =>
        blacklistFile := Some(Template(LocalBlacklist));
        invalid := 0;
      case Some(lines) =>
        var emails, domains;
        emails, domains, invalid := CollectLocal(LocalBlacklist, ParseListFile(lines));
        blacklistEmails := blacklistEmails + emails;
        blacklistDomains := blacklistDomains + domains;
    }

    /** `_load_from_cache` for the cache file of source `name`. */
    method LoadFromCache(name: string, kind: ListKind)
      modifies this
      ensures State() == ReadCache(old(State()), name, kind)
      ensures whitelistFile == old(whitelistFile) && blacklistFile == old(blacklistFile)
    {
      if name in cacheFiles {
        var entries := ParseListFile(cacheFiles[name]);
        match kind {
          case Ip =>
            blacklistIps := blacklistIps + set e | e in entries;
          case Domain =>
            blacklistDomains := blacklistDomains + set e | e in entries :: Lower(e);
          case Email =>
            blacklistEmails := blacklistEmails + set e | e in entries :: Lower(e);
          case IpCidr =>
            AddCidrBases(entries);
        }
      }
    }

    /** The `ip_cidr` branch of `_load_from_cache`: each entry up to its first `/`. */
    method AddCidrBases(entries: seq<string>)
      modifies this`blacklistIps
      ensures blacklistIps == old(blacklistIps) + set e | e in entries :: CidrBase(e)
    {
      var k := 0;
      while k < |entries|
        invariant 0 <= k <= |entries|
        invariant blacklistIps == old(blacklistIps) + CidrBases(entries[..k])
      {
        var entry := entries[k];
        assert entries[..k + 1][..k] == entries[..k] && entries[..k + 1][k] == entry;
        if '/' in entry {
          blacklistIps := blacklistIps + {Before(entry, '/')};
        } else {
          blacklistIps := blacklistIps + {entry};
        }
        k := k + 1;
      }
      assert entries[..k] == entries;
      CidrBasesAll(entries);
    }

    /** `_load_external_blacklists`: each enabled source in registry order is read from a
      * fresh cache, downloaded, or read from a stale cache when the download fails. */
    method LoadExternalBlacklists(registry: seq<Source>, force: bool, now: int, net: string -> Fetch)
      modifies this
      ensures State() == RefreshAll(old(State()), registry, force, now, updateInterval, net)
      ensures whitelistFile == old(whitelistFile) && blacklistFile == old(blacklistFile)
    {
      var i := 0;
      while i < |registry|
        invariant 0 <= i <= |registry|
        invariant State() == RefreshAll(old(State()), registry[..i], force, now, updateInterval, net)
        invariant whitelistFile == old(whitelistFile) && blacklistFile == old(blacklistFile)
      {
        var s := registry[i];
        assert registry[..i + 1][..i] == registry[..i];
        if s.enabled {
          if !force && IsCacheValid(metadata, updateInterval, s.name, now) {
            LoadFromCache(s.name, s.kind);
          } else {
            match net(s.url)
            case Fetched(body) =>
              cacheFiles := cacheFiles[s.name := body];
              LoadFromCache(s.name, s.kind);
              metadata := metadata[s.name := Record(s, now)];
            case Failed =>
              LoadFromCache(s.name, s.kind);
          }
        }
        i := i + 1;
      }
      assert registry[..i] == registry;
    }

    /** `load_all_lists`: both local lists, then the external sources. No set shrinks. */
    method LoadAllLists(registry: seq<Source>, force: bool, now: int, net: string -> Fetch)
      modifies this
      ensures State() == RefreshAll(
        Store(LocalLoad(LocalLoad(old(Snapshot()), LocalWhitelist, old(whitelistFile)), LocalBlacklist, old(blacklistFile)),
              old(metadata), old(cacheFiles)),
        registry, force, now, updateInterval, net)
      ensures Gate.Includes(old(Snapshot()), Snapshot())
      ensures whitelistFile == if old(whitelistFile).None? then Some(Template(LocalWhitelist)) else old(whitelistFile)
      ensures blacklistFile == if old(blacklistFile).None? then Some(Template(LocalBlacklist)) else old(blacklistFile)
    {
      var invalidWhitelist := LoadLocalWhitelist();
      var invalidBlacklist := LoadLocalBlacklist();
      LoadExternalBlacklists(registry, force, now, net);
    }

    /** `force_update`: the external sources, downloading regardless of cache age. */
    method ForceUpdate(registry: seq<Source>, now: int, net: string -> Fetch)
      modifies this
      ensures State() == RefreshAll(old(State()), registry, true, now, updateInterval, net)
      ensures Gate.Includes(old(Snapshot()), Snapshot())
      ensures whitelistFile == old(whitelistFile) && blacklistFile == old(blacklistFile)
    {
      LoadExternalBlacklists(registry, true, now, net);
    }

    /** `check_email` on the current sets. */
    function CheckEmail(address: string): Gate.Verdict
      reads this
    {
      Gate.CheckEmail(Snapshot(), address)
    }

    /** `check_ip` on the current sets. */
    function CheckIp(address: string): Gate.Verdict
      reads this
    {
      Gate.CheckIp(Snapshot(), address)
    }

    /** `get_stats`. */
    function GetStats(): Stats
      reads this
    {
      StatsOf(State())
    }
  }
}
